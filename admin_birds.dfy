/**
 * `AdminBirdsController`: adding, bulk-uploading, updating, deleting and
 * image-uploading birds against the store.  Image resizing and saving are
 * outside the model and arrive as functions that give `None` where the
 * image library or the file write throws.
 */
module AdminBirds {
  import opened Wrappers
  import opened Models
  import Text
  import opened Database

  /** The placeholder stored for a descriptive field the form leaves out. */
  const NotAvailable := "N/A"

  /** The form an admin submits: any field may be missing; `image` is the uploaded file's bytes. */
  datatype BirdForm = BirdForm(
    birdName: Option<string>,
    birdNumber: Option<string>,
    birdColor: Option<string>,
    birdFather: Option<string>,
    birdMother: Option<string>,
    champion: Option<string>,
    image: Option<Image>)

  /** A file was uploaded and it is not empty. */
  predicate HasImage(form: BirdForm) {
    form.image.Some? && |form.image.value| > 0
  }

  function OrNotAvailable(value: Option<string>): Option<string> {
    Some(value.GetOr(NotAvailable))
  }

  /**
   * `ImageResizerHelper.ResizeImageAsync`, `None` when it throws.  An empty
   * file never decodes as an image; whether any other file decodes, and
   * what it is re-encoded to, is the image library's, which `resize`
   * stands for.
   */
  function ResizeUpload(resize: Image -> Option<Image>, image: Image): (resized: Option<Image>)
    ensures |image| == 0 ==> resized.None?
    ensures |image| > 0 ==> resized == resize(image)
  {
    if |image| == 0 then None else resize(image)
  }

  /** The colour, parents and champion title of a bird. */
  function Descriptive(b: Bird): seq<Option<string>> {
    [b.birdColor, b.birdFather, b.birdMother, b.champion]
  }

  function FormDescriptive(form: BirdForm): seq<Option<string>> {
    [form.birdColor, form.birdFather, form.birdMother, form.champion]
  }

  /** Every descriptive field of `b` is present: the form's value, else "N/A". */
  predicate FillsDescriptive(b: Bird, form: BirdForm) {
    forall k :: 0 <= k < 4 ==>
      (Descriptive(b)[k].Some? &&
       (FormDescriptive(form)[k].Some? ==> Descriptive(b)[k] == FormDescriptive(form)[k]) &&
       (FormDescriptive(form)[k].None? ==> Descriptive(b)[k] == Some(NotAvailable)))
  }

  /**
   * The record `AddBird` stores for a form.  It fails exactly when a
   * non-empty image came and resizing it threw.  Otherwise the bird keeps
   * the form's name and number, has every descriptive field present (the
   * form's value, else "N/A"), no id yet, no image path, and image bytes
   * exactly when a non-empty image came: the resized ones.
   */
  function NewBird(form: BirdForm, resize: Image -> Option<Image>): (bird: Option<Bird>)
    ensures bird.None? <==> HasImage(form) && resize(form.image.value).None?
    ensures bird.Some? ==>
      var b := bird.value;
      && b.id == "" && b.birdName == form.birdName && b.birdNumber == form.birdNumber
      && FillsDescriptive(b, form) && b.imagePath.None?
      && (b.imageBytes.Some? <==> HasImage(form))
      && (HasImage(form) ==> b.imageBytes == resize(form.image.value))
  {
    var fields := Bird("", form.birdName, form.birdNumber,
                       OrNotAvailable(form.birdColor), OrNotAvailable(form.birdFather),
                       OrNotAvailable(form.birdMother), OrNotAvailable(form.champion),
                       None, None);
    if !HasImage(form) then Some(fields)
    else match ResizeUpload(resize, form.image.value)
      case None => None
      case Some(bytes) => Some(fields.(imageBytes := Some(bytes)))
  }

  /**
   * The record `UpdateBird` writes over `existing`.  It fails exactly when
   * a non-empty image came and resizing it threw.  Otherwise it keeps the
   * id; name, number and image bytes fall back to the stored ones, while
   * the descriptive fields are reset to "N/A" when left out and the stored
   * image path is dropped.
   */
  function MergeUpdate(existing: Bird, form: BirdForm, resize: Image -> Option<Image>): (bird: Option<Bird>)
    ensures bird.None? <==> HasImage(form) && resize(form.image.value).None?
    ensures bird.Some? ==>
      var b := bird.value;
      && b.id == existing.id
      && b.birdName == (if form.birdName.Some? then form.birdName else existing.birdName)
      && b.birdNumber == (if form.birdNumber.Some? then form.birdNumber else existing.birdNumber)
      && FillsDescriptive(b, form) && b.imagePath.None?
      && (HasImage(form) ==> b.imageBytes == resize(form.image.value))
      && (!HasImage(form) ==> b.imageBytes == existing.imageBytes)
  {
    var fields := Bird(existing.id,
                       if form.birdName.Some? then form.birdName else existing.birdName,
                       if form.birdNumber.Some? then form.birdNumber else existing.birdNumber,
                       OrNotAvailable(form.birdColor), OrNotAvailable(form.birdFather),
                       OrNotAvailable(form.birdMother), OrNotAvailable(form.champion),
                       None, existing.imageBytes);
    if !HasImage(form) then Some(fields)
    else match ResizeUpload(resize, form.image.value)
      case None => None
      case Some(bytes) => Some(fields.(imageBytes := Some(bytes)))
  }

  /** With name, number and image supplied, an update writes what an add would, under the stored id. */
  lemma UpdateMatchesAdd(existing: Bird, form: BirdForm, resize: Image -> Option<Image>)
    requires form.birdName.Some? && form.birdNumber.Some? && HasImage(form)
    ensures MergeUpdate(existing, form, resize).Some? <==> NewBird(form, resize).Some?
    ensures NewBird(form, resize).Some? ==>
      MergeUpdate(existing, form, resize).value == NewBird(form, resize).value.(id := existing.id)
  {
  }

  /** Submitting the same update twice leaves the same record as submitting it once. */
  lemma MergeUpdateIdempotent(existing: Bird, form: BirdForm, resize: Image -> Option<Image>)
    requires MergeUpdate(existing, form, resize).Some?
    ensures MergeUpdate(MergeUpdate(existing, form, resize).value, form, resize) == MergeUpdate(existing, form, resize)
  {
  }

  // ---------------------------------------------------------------------------
  // Bulk upload.

  /** What deserialising the uploaded JSON gives: an exception, `null`, or a list. */
  datatype Parsed = ParseError | NullList | BirdList(birds: seq<Bird>)

  /** The store and the two lists `UploadJson` keeps while it walks the file. */
  datatype UploadState = UploadState(
    rows: seq<Bird>,
    nextObjectId: nat,
    added: seq<Bird>,
    skipped: seq<Bird>,
    failed: bool)

  /**
   * One bird of the file: skipped exactly when a stored bird has its name
   * or number, inserted otherwise; an insert that throws marks the walk
   * failed and changes no row.  After a failure nothing happens.
   */
  function UploadStep(s: UploadState, bird: Bird): (r: UploadState)
    ensures s.failed ==> r == s
    ensures !s.failed && FindByNameOrNumber(s.rows, bird.birdName, bird.birdNumber).Some? ==>
      r == s.(skipped := s.skipped + [bird])
    ensures !s.failed && FindByNameOrNumber(s.rows, bird.birdName, bird.birdNumber).None? ==>
      && r.skipped == s.skipped
      && (r.failed <==> InsertBird(s.rows, s.nextObjectId, bird).outcome.Failure?)
      && (r.failed ==> r.rows == s.rows && r.added == s.added)
      && (!r.failed ==>
            && r.added == s.added + [bird]
            && |r.rows| == |s.rows| + 1
            && r.rows == s.rows + [bird.(id := r.rows[|s.rows|].id)])
  {
    if s.failed then s
    else if FindByNameOrNumber(s.rows, bird.birdName, bird.birdNumber).Some? then s.(skipped := s.skipped + [bird])
    else
      var ins := InsertBird(s.rows, s.nextObjectId, bird);
      if ins.outcome.Failure? then s.(nextObjectId := ins.nextObjectId, failed := true)
      else s.(rows := ins.rows, nextObjectId := ins.nextObjectId, added := s.added + [bird])
  }

  /**
   * The whole file, in order.  An insert that throws stops the walk: from a
   * failed state nothing further happens.  A walk that completes has added
   * or skipped every bird of the file.
   */
  function UploadAll(s: UploadState, birds: seq<Bird>): (r: UploadState)
    ensures s.failed ==> r == s
    ensures !r.failed ==> |r.added| + |r.skipped| == |s.added| + |s.skipped| + |birds|
    decreases |birds|
  {
    if birds == [] then s else UploadAll(UploadStep(s, birds[0]), birds[1..])
  }

  /** Walking two pieces of a file one after the other is walking the whole. */
  lemma {:induction false} UploadAllConcat(s: UploadState, a: seq<Bird>, b: seq<Bird>)
    ensures UploadAll(s, a + b) == UploadAll(UploadAll(s, a), b)
    decreases |a|
  {
    if a == [] {
      assert a + b == b;
    } else {
      assert (a + b)[0] == a[0];
      assert (a + b)[1..] == a[1..] + b;
      UploadAllConcat(UploadStep(s, a[0]), a[1..], b);
    }
  }

  /**
   * The walk takes the birds one at a time: the state after the first
   * `k + 1` birds is one upload step from the state after the first `k`.
   */
  lemma UploadAllStepByStep(s: UploadState, birds: seq<Bird>, k: nat)
    requires k < |birds|
    ensures UploadAll(s, birds[..k + 1]) == UploadStep(UploadAll(s, birds[..k]), birds[k])
  {
    assert birds[..k + 1] == birds[..k] + [birds[k]];
    UploadAllConcat(s, birds[..k], [birds[k]]);
    assert [birds[k]][1..] == [];
  }

  /** Neither of two rows shares the other's name or number. */
  predicate Distinguishable(a: Bird, b: Bird) {
    a.birdName != b.birdName && a.birdNumber != b.birdNumber
  }

  /**
   * `rows` is `base` with rows appended, each of which differs in name and
   * number from every row before it.
   */
  ghost predicate AppendsDistinct(base: seq<Bird>, rows: seq<Bird>) {
    |base| <= |rows| && rows[..|base|] == base &&
    forall i, j :: 0 <= i < j < |rows| && |base| <= j ==> Distinguishable(rows[i], rows[j])
  }

  lemma AppendsDistinctTransitive(a: seq<Bird>, b: seq<Bird>, c: seq<Bird>)
    requires AppendsDistinct(a, b) && AppendsDistinct(b, c)
    ensures AppendsDistinct(a, c)
  {
    assert c[..|a|] == b[..|b|][..|a|] by {
      assert c[..|b|] == b;
    }
    forall i, j | 0 <= i < j < |c| && |a| <= j
      ensures Distinguishable(c[i], c[j])
    {
      if j < |b| {
        assert c[i] == c[..|b|][i] == b[i] && c[j] == c[..|b|][j] == b[j];
      }
    }
  }

  /** One bird of the file: an inserted bird shares neither name nor number with any row before it. */
  lemma UploadStepAppendsDistinct(s: UploadState, bird: Bird)
    requires WellKeyed(s.rows)
    ensures var next := UploadStep(s, bird);
      WellKeyed(next.rows) && AppendsDistinct(s.rows, next.rows) &&
      |next.rows| - |s.rows| == |next.added| - |s.added| &&
      (!s.failed ==>
         (next.skipped == s.skipped + [bird] <==> FindByNameOrNumber(s.rows, bird.birdName, bird.birdNumber).Some?))
  {
    var next := UploadStep(s, bird);
    if !s.failed && next.rows != s.rows {
      var found := FindByNameOrNumber(s.rows, bird.birdName, bird.birdNumber);
      assert found.None?;
      forall i | 0 <= i < |s.rows|
        ensures Distinguishable(next.rows[i], next.rows[|s.rows|])
      {
        assert s.rows[i] in s.rows;
      }
    }
    assert next.rows[..|s.rows|] == s.rows;
  }

  /**
   * The upload only appends to the store, keeps ids well formed, and each
   * appended bird differs in name and number from every row before it --
   * so of two birds in one file sharing a name or number, the later one is
   * never added.
   */
  lemma {:induction false} UploadAppendsDistinct(s: UploadState, birds: seq<Bird>)
    requires WellKeyed(s.rows)
    ensures var r := UploadAll(s, birds);
      WellKeyed(r.rows) && AppendsDistinct(s.rows, r.rows) &&
      |r.rows| - |s.rows| == |r.added| - |s.added|
    decreases |birds|
  {
    if birds == [] {
      assert s.rows[..|s.rows|] == s.rows;
    } else {
      var next := UploadStep(s, birds[0]);
      UploadStepAppendsDistinct(s, birds[0]);
      UploadAppendsDistinct(next, birds[1..]);
      AppendsDistinctTransitive(s.rows, next.rows, UploadAll(next, birds[1..]).rows);
    }
  }

  lemma SplitPrefix(birds: seq<Bird>, a: nat, b: nat)
    requires a <= b <= |birds|
    ensures birds[..b] == birds[..a] + birds[a..b]
  {
  }

  /** A step that added `bird` appended one row carrying its name and number. */
  lemma AddedStepAppendsRow(p: UploadState, bird: Bird)
    requires UploadStep(p, bird).added == p.added + [bird]
    ensures var q := UploadStep(p, bird);
      |q.rows| == |p.rows| + 1 && q.rows[..|p.rows|] == p.rows &&
      q.rows[|p.rows|].birdName == bird.birdName && q.rows[|p.rows|].birdNumber == bird.birdNumber
  {
    var q := UploadStep(p, bird);
    assert !p.failed;
    assert FindByNameOrNumber(p.rows, bird.birdName, bird.birdNumber).None?;
    assert !q.failed;
  }

  /** A stored bird sharing the name or number makes the next step a skip. */
  lemma MatchingRowSkips(t: UploadState, k: nat, bird: Bird)
    requires !t.failed && k < |t.rows|
    requires t.rows[k].birdName == bird.birdName || t.rows[k].birdNumber == bird.birdNumber
    ensures UploadStep(t, bird) == t.(skipped := t.skipped + [bird])
  {
    assert t.rows[k] in t.rows;
  }

  /**
   * Of two birds in one file sharing a name or number, once the earlier is
   * added the later is skipped when its turn comes (unless an insert in
   * between has thrown).
   */
  lemma LaterDuplicateSkipped(s: UploadState, birds: seq<Bird>, i: nat, j: nat)
    requires WellKeyed(s.rows)
    requires i < j < |birds|
    requires birds[i].birdName == birds[j].birdName || birds[i].birdNumber == birds[j].birdNumber
    requires UploadAll(s, birds[..i + 1]).added == UploadAll(s, birds[..i]).added + [birds[i]]
    ensures var t := UploadAll(s, birds[..j]);
      !t.failed ==> UploadStep(t, birds[j]) == t.(skipped := t.skipped + [birds[j]])
  {
    var p := UploadAll(s, birds[..i]);
    var q := UploadAll(s, birds[..i + 1]);
    UploadAllStepByStep(s, birds, i);
    AddedStepAppendsRow(p, birds[i]);
    UploadAppendsDistinct(s, birds[..i + 1]);
    SplitPrefix(birds, i + 1, j);
    UploadAllConcat(s, birds[..i + 1], birds[i + 1..j]);
    var t := UploadAll(s, birds[..j]);
    UploadAppendsDistinct(q, birds[i + 1..j]);
    assert t.rows[|p.rows|] == t.rows[..|q.rows|][|p.rows|] == q.rows[|p.rows|];
    if !t.failed {
      MatchingRowSkips(t, |p.rows|, birds[j]);
    }
  }

  /** The name and number of each skipped bird, as the report lists them. */
  function SkippedPairs(skipped: seq<Bird>): (pairs: seq<(Option<string>, Option<string>)>)
    ensures |pairs| == |skipped|
    ensures forall i :: 0 <= i < |skipped| ==> pairs[i] == (skipped[i].birdName, skipped[i].birdNumber)
  {
    seq(|skipped|, i requires 0 <= i < |skipped| => (skipped[i].birdName, skipped[i].birdNumber))
  }

  // ---------------------------------------------------------------------------
  // The actions.

  method AddBird(db: DbServices, form: BirdForm, resize: Image -> Option<Image>) returns (result: ActionResult)
    requires db.Valid()
    modifies db
    ensures db.Valid() && db.users == old(db.users)
    ensures FindByNameOrNumber(old(db.birds), form.birdName, form.birdNumber).Some? ==>
      result == Conflict("A bird with the same name or number already exists.") &&
      db.birds == old(db.birds) && db.nextObjectId == old(db.nextObjectId)
    ensures FindByNameOrNumber(old(db.birds), form.birdName, form.birdNumber).None? && NewBird(form, resize).None? ==>
      result == ServerError && db.birds == old(db.birds) && db.nextObjectId == old(db.nextObjectId)
    ensures FindByNameOrNumber(old(db.birds), form.birdName, form.birdNumber).None? && NewBird(form, resize).Some? ==>
      var ins := InsertBird(old(db.birds), old(db.nextObjectId), NewBird(form, resize).value);
      db.birds == ins.rows && db.nextObjectId == ins.nextObjectId &&
      result == if ins.outcome.Success? then OkBird(ins.outcome.value) else ServerError
  {
    var existing := db.FindByNameOrNumberAsync(form.birdName, form.birdNumber);
    if existing.Some? {
      return Conflict("A bird with the same name or number already exists.");
    }
    var bird := NewBird(form, resize);
    if bird.None? {
      return ServerError;
    }
    var created := db.Create(bird.value);
    result := if created.Success? then OkBird(created.value) else ServerError;
  }

  /** One pass of the walk: the bird is skipped if the store has its name or number, inserted otherwise. */
  method UploadOne(db: DbServices, bird: Bird, added: seq<Bird>, skipped: seq<Bird>)
    returns (nowAdded: seq<Bird>, nowSkipped: seq<Bird>, failed: bool)
    requires db.Valid()
    modifies db
    ensures db.Valid() && db.users == old(db.users)
    ensures UploadState(db.birds, db.nextObjectId, nowAdded, nowSkipped, failed)
      == UploadStep(UploadState(old(db.birds), old(db.nextObjectId), added, skipped, false), bird)
  {
    nowAdded, nowSkipped, failed := added, skipped, false;
    var existing := db.FindByNameOrNumberAsync(bird.birdName, bird.birdNumber);
    if existing.None? {
      var created := db.Create(bird);
      if created.Failure? {
        failed := true;
      } else {
        nowAdded := added + [bird];
      }
    } else {
      nowSkipped := skipped + [bird];
    }
  }

  /**
   * The walk of `UploadJson` over the parsed birds: each is skipped or
   * inserted, until an insert throws.
   */
  method UploadEach(db: DbServices, birds: seq<Bird>) returns (added: seq<Bird>, skipped: seq<Bird>, failed: bool)
    requires db.Valid()
    modifies db
    ensures db.Valid() && db.users == old(db.users)
    ensures UploadState(db.birds, db.nextObjectId, added, skipped, failed)
      == UploadAll(UploadState(old(db.birds), old(db.nextObjectId), [], [], false), birds)
  {
    ghost var start := UploadState(db.birds, db.nextObjectId, [], [], false);
    added, skipped, failed := [], [], false;
    var i := 0;
    while i < |birds|
      invariant 0 <= i <= |birds|
      invariant db.Valid() && db.users == old(db.users)
      invariant UploadAll(UploadState(db.birds, db.nextObjectId, added, skipped, false), birds[i..])
                == UploadAll(start, birds)
    {
      assert birds[i..][1..] == birds[i + 1..];
      added, skipped, failed := UploadOne(db, birds[i], added, skipped);
      if failed {
        return;
      }
      i := i + 1;
    }
    assert birds[i..] == [];
  }

  method UploadJson(db: DbServices, jsonFile: Option<string>, parse: string -> Parsed) returns (result: ActionResult)
    requires db.Valid()
    modifies db
    ensures db.Valid() && db.users == old(db.users)
    ensures (jsonFile.None? || jsonFile.value == "") ==>
      result == BadRequest("Invalid JSON file.") && db.birds == old(db.birds)
    ensures jsonFile.Some? && jsonFile.value != "" ==>
      match parse(jsonFile.value)
      case ParseError => result == ServerError && db.birds == old(db.birds)
      case NullList => result == BadRequest("The JSON file is empty or invalid.") && db.birds == old(db.birds)
      case BirdList(birds) =>
        if birds == [] then result == BadRequest("The JSON file is empty or invalid.") && db.birds == old(db.birds)
        else
          var r := UploadAll(UploadState(old(db.birds), old(db.nextObjectId), [], [], false), birds);
          db.birds == r.rows && db.nextObjectId == r.nextObjectId &&
          result == if r.failed then ServerError else OkUpload(|r.added|, |r.skipped|, SkippedPairs(r.skipped))
  {
    if jsonFile.None? || jsonFile.value == "" {
      return BadRequest("Invalid JSON file.");
    }
    var parsed := parse(jsonFile.value);
    if parsed.ParseError? {
      return ServerError;
    }
    if parsed.NullList? || parsed.birds == [] {
      return BadRequest("The JSON file is empty or invalid.");
    }
    var added, skipped, failed := UploadEach(db, parsed.birds);
    result := if failed then ServerError else OkUpload(|added|, |skipped|, SkippedPairs(skipped));
  }

  method UpdateBird(db: DbServices, id: string, form: BirdForm, resize: Image -> Option<Image>)
    returns (result: ActionResult)
    requires db.Valid()
    modifies db
    ensures db.Valid() && db.users == old(db.users) && db.nextObjectId == old(db.nextObjectId)
    ensures !IsObjectId(id) ==> result == BadRequest("Invalid Bird ID format.") && db.birds == old(db.birds)
    ensures IsObjectId(id) && FindById(old(db.birds), CanonicalId(id)).None? ==>
      result == NotFound && db.birds == old(db.birds)
    ensures IsObjectId(id) && FindById(old(db.birds), CanonicalId(id)).Some? ==>
      var existing := FindById(old(db.birds), CanonicalId(id)).value;
      match MergeUpdate(existing, form, resize)
      case None => result == ServerError && db.birds == old(db.birds)
      case Some(bird) => result == NoContent && db.birds == ReplaceById(old(db.birds), existing.id, bird)
  {
    if id == "" || !IsObjectId(id) {
      return BadRequest("Invalid Bird ID format.");
    }
    var found := db.GetById(id);
    if found.Failure? || found.value.None? {
      return NotFound;
    }
    var existing := found.value.value;
    var bird := MergeUpdate(existing, form, resize);
    if bird.None? {
      return ServerError;
    }
    var _ := db.Update(id, bird.value);
    result := NoContent;
  }

  method DeleteBird(db: DbServices, id: string) returns (result: ActionResult)
    requires db.Valid()
    modifies db
    ensures db.Valid() && db.users == old(db.users) && db.nextObjectId == old(db.nextObjectId)
    ensures !IsObjectId(id) ==> result == ServerError && db.birds == old(db.birds)
    ensures IsObjectId(id) && FindById(old(db.birds), CanonicalId(id)).None? ==>
      result == NotFound && db.birds == old(db.birds)
    ensures IsObjectId(id) && FindById(old(db.birds), CanonicalId(id)).Some? ==>
      result == NoContent && db.birds == RemoveById(old(db.birds), CanonicalId(id)) &&
      |db.birds| == |old(db.birds)| - 1
  {
    var found := db.GetById(id);
    if found.Failure? {
      return ServerError;
    }
    if found.value.None? {
      return NotFound;
    }
    var _ := db.Delete(id);
    result := NoContent;
  }

  /**
   * The record `UploadBird` stores: name, number and the saved image's
   * path; the descriptive fields and image bytes the form sent are dropped.
   */
  function ImageBird(form: BirdForm, imagePath: string): (b: Bird)
    ensures b.id == "" && b.birdName == form.birdName && b.birdNumber == form.birdNumber
    ensures b.imagePath == Some(imagePath) && b.imageBytes.None?
    ensures forall k :: 0 <= k < 4 ==> Descriptive(b)[k].None?
  {
    Bird("", form.birdName, form.birdNumber, None, None, None, None, Some(imagePath), None)
  }

  /**
   * The path `UploadBird` saves the resized image under, or `None` when
   * resizing or writing the file throws.
   */
  function SavedImagePath(image: Image, resize: Image -> Option<Image>, saveImage: Image -> Option<string>): Option<string> {
    match ResizeUpload(resize, image)
    case None => None
    case Some(bytes) => saveImage(bytes)
  }

  /** A zero-length upload gets past the form check but never reaches the disk or the store. */
  lemma EmptyUploadIsNeverSaved(resize: Image -> Option<Image>, saveImage: Image -> Option<string>)
    ensures SavedImagePath([], resize, saveImage).None?
  {
  }

  /** A saved path comes from writing the resized bytes of a non-empty upload. */
  lemma SavedPathComesFromResizedImage(image: Image, resize: Image -> Option<Image>, saveImage: Image -> Option<string>)
    ensures SavedImagePath(image, resize, saveImage).Some? <==>
      |image| > 0 && resize(image).Some? && saveImage(resize(image).value).Some?
    ensures SavedImagePath(image, resize, saveImage).Some? ==>
      SavedImagePath(image, resize, saveImage) == saveImage(resize(image).value)
  {
  }

  method UploadBird(db: DbServices, form: BirdForm, resize: Image -> Option<Image>, saveImage: Image -> Option<string>)
    returns (result: ActionResult)
    requires db.Valid()
    modifies db
    ensures db.Valid() && db.users == old(db.users)
    ensures form.image.None? || Text.IsNullOrEmpty(form.birdName) || Text.IsNullOrEmpty(form.birdNumber) ==>
      result == BadRequest("Image, BirdName, and BirdNumber are required.") &&
      db.birds == old(db.birds) && db.nextObjectId == old(db.nextObjectId)
    ensures form.image.Some? && !Text.IsNullOrEmpty(form.birdName) && !Text.IsNullOrEmpty(form.birdNumber) ==>
      match SavedImagePath(form.image.value, resize, saveImage)
      case None =>
        result == ServerError && db.birds == old(db.birds) && db.nextObjectId == old(db.nextObjectId)
      case Some(path) =>
        var ins := InsertBird(old(db.birds), old(db.nextObjectId), ImageBird(form, path));
        db.birds == ins.rows && db.nextObjectId == ins.nextObjectId &&
        result == if ins.outcome.Success? then Ok("Bird and image uploaded successfully.") else ServerError
  {
    if form.image.None? || Text.IsNullOrEmpty(form.birdName) || Text.IsNullOrEmpty(form.birdNumber) {
      return BadRequest("Image, BirdName, and BirdNumber are required.");
    }
    var resized := ResizeUpload(resize, form.image.value);
    if resized.None? {
      return ServerError;
    }
    var imagePath := saveImage(resized.value);
    if imagePath.None? {
      return ServerError;
    }
    var created := db.Create(ImageBird(form, imagePath.value));
    result := if created.Success? then Ok("Bird and image uploaded successfully.") else ServerError;
  }
}
