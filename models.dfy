/** The records the services and controllers exchange, and the HTTP results they return. */
module Models {
  import opened Wrappers

  /** `UserModel.Role`'s initial value: every registered user starts as a plain user. */
  const DefaultRole := "User"

  /** A stored user (`UserModel`); the password is kept only as its hash. */
  datatype UserModel = UserModel(
    userName: string,
    userEmail: Option<string>,
    passwordHash: string,
    role: string)

  /** Image bytes, as uploaded or as resized. */
  type Image = seq<bv8>

  /**
   * A stored bird (`Bird`).  Every field the source declares nullable is an
   * Option; `Id` is "" until the store assigns one.
   */
  datatype Bird = Bird(
    id: string,
    birdName: Option<string>,
    birdNumber: Option<string>,
    birdColor: Option<string>,
    birdFather: Option<string>,
    birdMother: Option<string>,
    champion: Option<string>,
    imagePath: Option<string>,
    imageBytes: Option<Image>)

  /** What a controller action returns. */
  datatype ActionResult =
    | Ok(message: string)
    | OkBird(bird: Bird)
    | OkToken(token: string)
    | OkUpload(addedCount: nat, skippedCount: nat, skippedBirds: seq<(Option<string>, Option<string>)>)
    | NoContent
    | BadRequest(message: string)
    | Unauthorized(message: string)
    | NotFound
    | Conflict(message: string)
    | ServerError
}
