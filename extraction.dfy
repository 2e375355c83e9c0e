/**
 * What `TrainingHelper.extractFeatures` does to the record store, as functions
 * on `Store` values, and the properties of that behaviour.
 *
 * The batch works through the images that had no feature when it started, in
 * the order the query returned them. Each image is first validated:
 *   - an image whose collection event no longer exists is deleted on its own;
 *   - an image whose file is missing deletes its event "recursively".
 * A valid image then has its feature extracted. A failed extraction (no
 * vector, or an empty one) deletes the event recursively as well; a vector is
 * stored as the image's feature.
 *
 * The last section models the failure path as the source writes it, where a
 * failure escapes the batch as an exception and the emptiness test never fires.
 */
module Extraction {
  import opened Records

  const ModelFileName: string := "vgg_faces.pb"

  function ModelFilePath(env: Environment): string {
    env.modelDirectory + "/" + ModelFileName
  }

  /** The network, or None when the model file is not on the device. */
  function GetInitializedTensorFlow(env: Environment): (tf: Option<TensorFlow>)
    ensures tf.None? <==> ModelFilePath(env) !in env.files
    ensures tf.Some? ==> tf.value.modelPath == ModelFilePath(env)
    ensures tf.Some? ==> tf.value.inputSize == 224 && tf.value.outputSize == 4096 && tf.value.imageMean == 128
  {
    if ModelFilePath(env) !in env.files then None
    else Some(TensorFlow(224, 128, 4096, "Placeholder", "fc7/fc7", ModelFilePath(env)))
  }

  /** Keys of the images whose features have not been extracted yet. */
  function PendingIds(s: Store): set<int> {
    set k | k in s.images && s.images[k].studentImageFeatureId == 0
  }

  /** `pending` is a result of the query for images with feature id 0. */
  ghost predicate IsPendingList(s: Store, pending: seq<StudentImage>) {
    CurrentRows(s.images, pending) && IdsOf(pending) == PendingIds(s)
  }

  /** `studentImageDao.delete(studentImage)`: that one row goes, every other record stays. */
  function DeleteImage(s: Store, img: StudentImage): (r: Store)
    ensures r.images.Keys == s.images.Keys - {img.id}
    ensures forall k :: k in r.images ==> r.images[k] == s.images[k]
    ensures r.features == s.features && r.events == s.events
    ensures r.students == s.students && r.nextStudentId == s.nextStudentId
  {
    s.(images := s.images - {img.id})
  }

  /** The images of `img`'s event that already have a feature. */
  function Siblings(s: Store, img: StudentImage): set<int> {
    set k | k in s.images
      && s.images[k].studentImageCollectionEventId == img.studentImageCollectionEventId
      && s.images[k].studentImageFeatureId != 0
  }

  /** The keys of the features of the images `keys`. */
  function FeatureIdsOf(images: map<int, StudentImage>, keys: set<int>): set<int>
    requires keys <= images.Keys
  {
    set k | k in keys :: images[k].studentImageFeatureId
  }

  lemma FeatureIdsOfAdd(images: map<int, StudentImage>, keys: set<int>, k: int)
    requires keys <= images.Keys && k in images
    ensures FeatureIdsOf(images, keys + {k}) == FeatureIdsOf(images, keys) + {images[k].studentImageFeatureId}
  {
    var f := images[k].studentImageFeatureId;
    assert f in FeatureIdsOf(images, keys + {k});
  }

  /**
   * `deleteStudentImagesRecursive`: the siblings that have a feature and those
   * features, the event, and `img` itself. Only deletes: no record is added or
   * changed, and the Students are not touched.
   */
  function DeleteRecursive(s: Store, img: StudentImage): (r: Store)
    ensures img.id !in r.images && img.studentImageCollectionEventId !in r.events
    ensures r.images.Keys <= s.images.Keys && r.features.Keys <= s.features.Keys && r.events.Keys <= s.events.Keys
    ensures r.students == s.students && r.nextStudentId == s.nextStudentId
  {
    var siblings := Siblings(s, img);
    s.(images := s.images - siblings - {img.id},
       features := s.features - FeatureIdsOf(s.images, siblings),
       events := s.events - {img.studentImageCollectionEventId})
  }

  predicate ImageIsValid(s: Store, img: StudentImage, files: set<string>) {
    img.studentImageCollectionEventId in s.events && img.imageFileUrl in files
  }

  /**
   * The store after `isStudentImageValid(img)`: untouched for a valid image;
   * an invalid image is gone afterwards. No Student is touched.
   */
  function AfterValidation(s: Store, img: StudentImage, files: set<string>): (r: Store)
    ensures ImageIsValid(s, img, files) ==> r == s
    ensures !ImageIsValid(s, img, files) ==> img.id !in r.images && r.images.Keys <= s.images.Keys
    ensures r.students == s.students && r.nextStudentId == s.nextStudentId
  {
    if img.studentImageCollectionEventId !in s.events then DeleteImage(s, img)
    else if img.imageFileUrl !in files then DeleteRecursive(s, img)
    else s
  }

  /** `storeStudentImageFeature`: insert the feature under the image's id and link it. */
  function StoreFeature(s: Store, img: StudentImage, vector: seq<real>, now: int): (r: Store)
    ensures img.id in r.features && r.features[img.id].featureVector == vector && r.features[img.id].id == img.id
    ensures img.id in r.images && r.images[img.id] == img.(studentImageFeatureId := img.id)
    ensures r.features.Keys == s.features.Keys + {img.id} && r.images.Keys == s.images.Keys + {img.id}
    ensures img.id in s.images ==> r.images.Keys == s.images.Keys
    ensures forall k :: k in s.images && k != img.id ==> r.images[k] == s.images[k]
    ensures forall k :: k in s.features && k != img.id ==> r.features[k] == s.features[k]
    ensures r.events == s.events && r.students == s.students && r.nextStudentId == s.nextStudentId
  {
    s.(features := s.features[img.id := StudentImageFeature(img.id, now, vector)],
       images := s.images[img.id := img.(studentImageFeatureId := img.id)])
  }

  /**
   * One turn of the loop of `extractFeatures`. The extractor's `None` is a
   * failed extraction; a failure, like an empty vector, deletes the event
   * recursively. A turn never touches a Student and never adds an event.
   */
  function ExtractOne(s: Store, img: StudentImage, tf: TensorFlow, env: Environment): (r: Store)
    ensures r.events.Keys <= s.events.Keys
    ensures forall e :: e in r.events ==> r.events[e] == s.events[e]
    ensures r.students == s.students && r.nextStudentId == s.nextStudentId
  {
    if !ImageIsValid(s, img, env.files) then AfterValidation(s, img, env.files)
    else match env.extract(tf, img.imageFileUrl)
      case None => DeleteRecursive(s, img)
      case Some(vector) =>
        if vector == [] then DeleteRecursive(s, img)
        else StoreFeature(s, img, vector, env.now)
  }

  /** The loop of `extractFeatures` over `pending`, in order. */
  function ExtractAll(s: Store, pending: seq<StudentImage>, tf: TensorFlow, env: Environment): (r: Store)
    ensures r.events.Keys <= s.events.Keys
    ensures forall e :: e in r.events ==> r.events[e] == s.events[e]
    ensures r.students == s.students && r.nextStudentId == s.nextStudentId
    decreases |pending|
  {
    if pending == [] then s
    else ExtractOne(ExtractAll(s, pending[..|pending| - 1], tf, env), pending[|pending| - 1], tf, env)
  }

  /** `extractFeatures`, given the list its query returned. It never touches a Student. */
  function ExtractFeatures(s: Store, pending: seq<StudentImage>, env: Environment): (r: Store)
    ensures r.events.Keys <= s.events.Keys
    ensures forall e :: e in r.events ==> r.events[e] == s.events[e]
    ensures r.students == s.students && r.nextStudentId == s.nextStudentId
  {
    if |pending| == 0 then s
    else match GetInitializedTensorFlow(env)
      case None => s
      case Some(tf) => ExtractAll(s, pending, tf, env)
  }

  // ---------------------------------------------------------------------------
  // The effect of each outcome of one turn

  /** Without the model file, the batch changes no record. */
  lemma ModelMissingChangesNothing(s: Store, pending: seq<StudentImage>, env: Environment)
    requires ModelFilePath(env) !in env.files
    ensures ExtractFeatures(s, pending, env) == s
  {
  }

  /** An image whose event is gone is reported invalid and deleted, and nothing else changes. */
  lemma OrphanDeletedAlone(s: Store, img: StudentImage, tf: TensorFlow, env: Environment)
    requires img.studentImageCollectionEventId !in s.events
    ensures !ImageIsValid(s, img, env.files)
    ensures var r := ExtractOne(s, img, tf, env);
      && r.images.Keys == s.images.Keys - {img.id}
      && (forall k :: k in r.images ==> r.images[k] == s.images[k])
      && r.features == s.features && r.events == s.events
      && r.students == s.students && r.nextStudentId == s.nextStudentId
  {
  }

  /**
   * Validating an image that has a feature but no event deletes the image and
   * keeps its feature, which then belongs to no image: the store invariant is
   * lost. The batch never validates such an image, since it lists only images
   * without a feature.
   */
  lemma FeaturedOrphanLeavesFeature(s: Store, img: StudentImage, files: set<string>)
    requires ValidStore(s) && img.id in s.features
    requires img.studentImageCollectionEventId !in s.events
    ensures var r := AfterValidation(s, img, files);
      && img.id !in r.images && r.features[img.id] == s.features[img.id]
      && !ValidStore(r)
  {
  }

  /**
   * The recursive delete removes exactly the siblings that have a feature,
   * their features, the event and the image; every other record is kept as it was.
   */
  lemma DeleteRecursiveExact(s: Store, img: StudentImage)
    requires ValidStore(s)
    ensures var r := DeleteRecursive(s, img);
      && r.images.Keys == s.images.Keys - Siblings(s, img) - {img.id}
      && r.features.Keys == s.features.Keys - Siblings(s, img)
      && r.events.Keys == s.events.Keys - {img.studentImageCollectionEventId}
      && (forall k :: k in r.images ==> r.images[k] == s.images[k])
      && (forall k :: k in r.features ==> r.features[k] == s.features[k])
      && (forall e :: e in r.events ==> r.events[e] == s.events[e])
      && r.students == s.students && r.nextStudentId == s.nextStudentId
  {
    var siblings := Siblings(s, img);
    var dropped := FeatureIdsOf(s.images, siblings);
    assert dropped == siblings by {
      forall k | k in siblings ensures s.images[k].studentImageFeatureId == k {
      }
      forall k | k in dropped ensures k in siblings {
        var j :| j in siblings && s.images[j].studentImageFeatureId == k;
      }
    }
  }

  /** Nothing that belongs to another event changes. */
  lemma DeleteRecursiveSparesOtherEvents(s: Store, img: StudentImage, k: int)
    requires ValidStore(s)
    requires k in s.images && k != img.id
    requires s.images[k].studentImageCollectionEventId != img.studentImageCollectionEventId
    ensures var r := DeleteRecursive(s, img);
      && k in r.images && r.images[k] == s.images[k]
      && (k in s.features ==> k in r.features && r.features[k] == s.features[k])
      && (s.images[k].studentImageCollectionEventId in s.events ==>
            s.images[k].studentImageCollectionEventId in r.events)
  {
    DeleteRecursiveExact(s, img);
  }

  /**
   * Siblings without a feature are not deleted: they stay in the store and
   * refer to an event that no longer exists.
   */
  lemma FeaturelessSiblingsSurvive(s: Store, img: StudentImage, k: int)
    requires ValidStore(s)
    requires k in s.images && k != img.id
    requires s.images[k].studentImageCollectionEventId == img.studentImageCollectionEventId
    requires s.images[k].studentImageFeatureId == 0
    ensures var r := DeleteRecursive(s, img);
      && k in r.images && r.images[k] == s.images[k]
      && r.images[k].studentImageCollectionEventId !in r.events
  {
    DeleteRecursiveExact(s, img);
  }

  /** A missing file deletes the event recursively, keyed off the image. */
  lemma MissingFileDeletesRecursively(s: Store, img: StudentImage, tf: TensorFlow, env: Environment)
    requires img.studentImageCollectionEventId in s.events
    requires img.imageFileUrl !in env.files
    ensures !ImageIsValid(s, img, env.files)
    ensures ExtractOne(s, img, tf, env) == DeleteRecursive(s, img)
  {
  }

  /** A valid image whose extraction fails, or yields an empty vector, deletes the event recursively. */
  lemma FailedExtractionDeletesRecursively(s: Store, img: StudentImage, tf: TensorFlow, env: Environment)
    requires ImageIsValid(s, img, env.files)
    requires env.extract(tf, img.imageFileUrl).None? || env.extract(tf, img.imageFileUrl).value == []
    ensures ExtractOne(s, img, tf, env) == DeleteRecursive(s, img)
  {
  }

  /**
   * A successful extraction inserts exactly one feature, under the image's id,
   * and links the image to it, so the image is no longer pending.
   */
  lemma SuccessfulExtractionStoresOne(s: Store, img: StudentImage, tf: TensorFlow, env: Environment)
    requires ImageIsValid(s, img, env.files)
    requires env.extract(tf, img.imageFileUrl).Some? && env.extract(tf, img.imageFileUrl).value != []
    requires ValidStore(s) && img.id in PendingIds(s) && s.images[img.id] == img
    ensures var r := ExtractOne(s, img, tf, env);
      && img.id !in s.features
      && r.features.Keys == s.features.Keys + {img.id}
      && r.features[img.id] == StudentImageFeature(img.id, env.now, env.extract(tf, img.imageFileUrl).value)
      && r.images.Keys == s.images.Keys
      && r.images[img.id] == s.images[img.id].(studentImageFeatureId := img.id)
      && PendingIds(r) == PendingIds(s) - {img.id}
      && (forall k :: k in r.images && k != img.id ==> r.images[k] == s.images[k])
      && (forall k :: k in s.features && k != img.id ==> r.features[k] == s.features[k])
      && r.events == s.events && r.students == s.students && r.nextStudentId == s.nextStudentId
  {
    var r := ExtractOne(s, img, tf, env);
    assert PendingIds(r) == PendingIds(s) - {img.id} by {
      forall k | k in PendingIds(r) ensures k in PendingIds(s) - {img.id} {
      }
    }
  }

  // ---------------------------------------------------------------------------
  // The store invariant is kept

  lemma DeleteImageKeepsValid(s: Store, img: StudentImage)
    requires ValidStore(s) && img.id !in s.features
    ensures ValidStore(DeleteImage(s, img))
  {
  }

  lemma DeleteRecursiveKeepsValid(s: Store, img: StudentImage)
    requires ValidStore(s) && img.id !in s.features
    ensures ValidStore(DeleteRecursive(s, img))
  {
    DeleteRecursiveExact(s, img);
  }

  lemma StoreFeatureKeepsValid(s: Store, img: StudentImage, vector: seq<real>, now: int)
    requires ValidStore(s) && img.id in s.images
    ensures ValidStore(StoreFeature(s, img, vector, now))
  {
  }

  /**
   * How one turn over the pending image `img` may change the store `s` into
   * `r`: the invariant holds, the image stops being pending, the other pending
   * images are untouched, features appear only under its id, events are only
   * deleted, and images that had a feature are either kept as they were or
   * deleted together with their feature and event.
   */
  ghost predicate TurnEffect(s: Store, r: Store, img: StudentImage) {
    && ValidStore(r)
    && PendingIds(r) == PendingIds(s) - {img.id}
    && (forall k :: k in PendingIds(r) ==> r.images[k] == s.images[k])
    && r.images.Keys <= s.images.Keys
    && r.features.Keys <= s.features.Keys + {img.id}
    && (forall k :: k in r.features && k != img.id ==> r.features[k] == s.features[k])
    && (forall e :: e in r.events ==> e in s.events && r.events[e] == s.events[e])
    && r.students == s.students && r.nextStudentId == s.nextStudentId
    && (forall k :: k in s.images && k != img.id ==>
          (k in r.images && r.images[k] == s.images[k]) ||
          (k !in r.images && k !in r.features && s.images[k].studentImageCollectionEventId !in r.events))
  }

  lemma DeleteImageTurn(s: Store, img: StudentImage)
    requires ValidStore(s) && img.id in PendingIds(s)
    ensures TurnEffect(s, DeleteImage(s, img), img)
  {
    DeleteImageKeepsValid(s, img);
  }

  lemma DeleteRecursiveTurn(s: Store, img: StudentImage)
    requires ValidStore(s) && img.id in PendingIds(s)
    ensures TurnEffect(s, DeleteRecursive(s, img), img)
  {
    DeleteRecursiveKeepsValid(s, img);
    DeleteRecursiveExact(s, img);
  }

  lemma StoreFeatureTurn(s: Store, img: StudentImage, vector: seq<real>, now: int)
    requires ValidStore(s) && img.id in PendingIds(s) && s.images[img.id] == img
    ensures TurnEffect(s, StoreFeature(s, img, vector, now), img)
  {
    StoreFeatureKeepsValid(s, img, vector, now);
    var r := StoreFeature(s, img, vector, now);
    assert PendingIds(r) == PendingIds(s) - {img.id} by {
      forall k | k in PendingIds(r) ensures k in PendingIds(s) - {img.id} {
      }
    }
  }

  /** One turn over a pending image has the effect `TurnEffect` describes, whatever its outcome. */
  lemma ExtractOneStep(s: Store, img: StudentImage, tf: TensorFlow, env: Environment)
    requires ValidStore(s)
    requires img.id in PendingIds(s) && s.images[img.id] == img
    ensures TurnEffect(s, ExtractOne(s, img, tf, env), img)
  {
    if !ImageIsValid(s, img, env.files) {
      if img.studentImageCollectionEventId !in s.events {
        DeleteImageTurn(s, img);
      } else {
        DeleteRecursiveTurn(s, img);
      }
    } else if env.extract(tf, img.imageFileUrl).None? || env.extract(tf, img.imageFileUrl).value == [] {
      DeleteRecursiveTurn(s, img);
    } else {
      StoreFeatureTurn(s, img, env.extract(tf, img.imageFileUrl).value, env.now);
    }
  }

  // ---------------------------------------------------------------------------
  // The whole batch

  /**
   * The state of the batch after it has processed `done`, with `rest` still to
   * come: the invariant holds, exactly the images of `rest` are pending and
   * unchanged, features were added only for processed images, events were only
   * deleted, no Student changed, and every image that had a feature at the start
   * is either kept with its feature or gone together with its feature and event.
   */
  ghost predicate Progress(s: Store, t: Store, done: seq<StudentImage>, rest: seq<StudentImage>) {
    && ValidStore(t)
    && PendingIds(t) == IdsOf(rest)
    && (forall i :: 0 <= i < |rest| ==> rest[i].id in t.images && t.images[rest[i].id] == rest[i])
    && t.features.Keys <= s.features.Keys + IdsOf(done)
    && (forall e :: e in t.events ==> e in s.events && t.events[e] == s.events[e])
    && t.students == s.students && t.nextStudentId == s.nextStudentId
    && (forall k :: k in s.images && s.images[k].studentImageFeatureId != 0 ==>
          (k in t.images && t.images[k] == s.images[k] && k in t.features && k in s.features && t.features[k] == s.features[k]) ||
          (k !in t.images && k !in t.features && s.images[k].studentImageCollectionEventId !in t.events))
  }

  lemma IdsOfSplit(rows: seq<StudentImage>)
    requires |rows| > 0
    requires forall i, j :: 0 <= i < j < |rows| ==> rows[i].id != rows[j].id
    ensures IdsOf(rows) == {rows[0].id} + IdsOf(rows[1..])
    ensures rows[0].id !in IdsOf(rows[1..])
  {
    assert forall r :: r in rows <==> r == rows[0] || r in rows[1..];
  }

  lemma FirstIdListed(rows: seq<StudentImage>)
    requires rows != []
    ensures rows[0].id in IdsOf(rows)
  {
  }

  lemma NoIdsNoRows(rows: seq<StudentImage>)
    requires IdsOf(rows) == {}
    ensures rows == []
  {
    if rows != [] {
      FirstIdListed(rows);
      assert false;
    }
  }

  /** One more turn of the batch keeps its progress invariant. */
  lemma ProgressStep(s: Store, t: Store, done: seq<StudentImage>, rest: seq<StudentImage>, tf: TensorFlow, env: Environment)
    requires Progress(s, t, done, rest) && rest != []
    requires forall i, j :: 0 <= i < j < |rest| ==> rest[i].id != rest[j].id
    ensures Progress(s, ExtractOne(t, rest[0], tf, env), done + [rest[0]], rest[1..])
  {
    var img := rest[0];
    IdsOfSplit(rest);
    assert img.id in PendingIds(t);
    ExtractOneStep(t, img, tf, env);
    assert IdsOf(done + [img]) == IdsOf(done) + {img.id} by {
      assert forall r :: r in done + [img] <==> r in done || r == img;
    }
  }

  lemma {:induction false} ExtractAllProgress(s: Store, pending: seq<StudentImage>, n: nat, tf: TensorFlow, env: Environment)
    requires ValidStore(s) && IsPendingList(s, pending) && n <= |pending|
    ensures Progress(s, ExtractAll(s, pending[..n], tf, env), pending[..n], pending[n..])
  {
    if n == 0 {
      assert pending[..0] == [];
      assert pending[0..] == pending;
      assert IdsOf([]) == {};
    } else {
      ExtractAllProgress(s, pending, n - 1, tf, env);
      var t := ExtractAll(s, pending[..n - 1], tf, env);
      assert pending[..n][..n - 1] == pending[..n - 1];
      var rest := pending[n - 1..];
      assert rest[0] == pending[n - 1] && rest[1..] == pending[n..];
      assert pending[..n - 1] + [rest[0]] == pending[..n];
      ProgressStep(s, t, pending[..n - 1], rest, tf, env);
    }
  }

  /**
   * The whole batch, with the model present: afterwards no image is pending,
   * so a second run finds nothing to do and changes nothing; features were
   * added only for images that were pending; images that already had a
   * feature were never extracted again, only deleted with their event.
   */
  lemma ExtractFeaturesIdempotent(s: Store, pending: seq<StudentImage>, env: Environment)
    requires ValidStore(s) && IsPendingList(s, pending)
    requires GetInitializedTensorFlow(env).Some?
    ensures var t := ExtractFeatures(s, pending, env);
      && ValidStore(t)
      && PendingIds(t) == {}
      && t.features.Keys <= s.features.Keys + PendingIds(s)
      && (forall again :: IsPendingList(t, again) ==> again == [] && ExtractFeatures(t, again, env) == t)
  {
    var t := ExtractFeatures(s, pending, env);
    if |pending| == 0 {
      assert IdsOf(pending) == {};
    } else {
      ExtractAllProgress(s, pending, |pending|, GetInitializedTensorFlow(env).value, env);
      assert pending[..|pending|] == pending;
      assert IdsOf(pending[|pending|..]) == {};
    }
    forall again: seq<StudentImage> | IsPendingList(t, again)
      ensures again == []
    {
      NoIdsNoRows(again);
    }
  }

  /**
   * An image that had a feature before the batch keeps its record and its
   * feature unchanged, unless a failure in its own event deleted it together
   * with its feature and the event.
   */
  lemma FeaturedImagesUntouched(s: Store, pending: seq<StudentImage>, env: Environment, k: int)
    requires ValidStore(s) && IsPendingList(s, pending)
    requires k in s.images && s.images[k].studentImageFeatureId != 0
    ensures var t := ExtractFeatures(s, pending, env);
      || (k in t.images && t.images[k] == s.images[k] && k in t.features && t.features[k] == s.features[k])
      || (k !in t.images && k !in t.features && s.images[k].studentImageCollectionEventId !in t.events)
  {
    var t := ExtractFeatures(s, pending, env);
    if |pending| > 0 && GetInitializedTensorFlow(env).Some? {
      ExtractAllProgress(s, pending, |pending|, GetInitializedTensorFlow(env).value, env);
      assert pending[..|pending|] == pending;
    }
  }

  // ---------------------------------------------------------------------------
  // The failure path as the source writes it

  /** Gson's rendering of a list of numbers: the elements, comma-separated. */
  function JoinElements(vector: seq<real>, show: real -> string): string
    decreases |vector|
  {
    if vector == [] then ""
    else if |vector| == 1 then show(vector[0])
    else show(vector[0]) + "," + JoinElements(vector[1..], show)
  }

  /**
   * `gson.toJson(list)`: a bracketed list, so never the empty string, and
   * `"[]"` for an empty vector.
   */
  function ToJson(vector: seq<real>, show: real -> string): (json: string)
    ensures |json| >= 2 && json[0] == '[' && json[|json| - 1] == ']'
    ensures vector == [] ==> json == "[]"
  {
    "[" + JoinElements(vector, show) + "]"
  }

  /**
   * One turn as written: the extractor's `None` is an exception out of image
   * loading or the network, which escapes the batch (`None` here); a vector is
   * serialised, and only an empty serialisation would delete recursively.
   */
  function ExtractOneAsWritten(s: Store, img: StudentImage, tf: TensorFlow, env: Environment, show: real -> string): (r: Option<Store>)
    ensures r.None? <==> ImageIsValid(s, img, env.files) && env.extract(tf, img.imageFileUrl).None?
    ensures ImageIsValid(s, img, env.files) && env.extract(tf, img.imageFileUrl).Some? ==>
      r == Some(StoreFeature(s, img, env.extract(tf, img.imageFileUrl).value, env.now))
    ensures !ImageIsValid(s, img, env.files) ==> r == Some(AfterValidation(s, img, env.files))
  {
    if !ImageIsValid(s, img, env.files) then Some(AfterValidation(s, img, env.files))
    else match env.extract(tf, img.imageFileUrl)
      case None => None
      case Some(vector) =>
        if ToJson(vector, show) == "" then Some(DeleteRecursive(s, img))
        else Some(StoreFeature(s, img, vector, env.now))
  }

  /** Where a batch stopped: the store it left, and whether an exception ended it. */
  datatype Batch = Batch(store: Store, aborted: bool)

  /** The loop as written: the first exception ends the batch; earlier turns stay committed. */
  function ExtractAllAsWritten(s: Store, pending: seq<StudentImage>, tf: TensorFlow, env: Environment, show: real -> string): (r: Batch)
    ensures r.store.students == s.students && r.store.nextStudentId == s.nextStudentId
    ensures r.store.events.Keys <= s.events.Keys
    decreases |pending|
  {
    if pending == [] then Batch(s, false)
    else
      var b := ExtractAllAsWritten(s, pending[..|pending| - 1], tf, env, show);
      if b.aborted then b
      else match ExtractOneAsWritten(b.store, pending[|pending| - 1], tf, env, show)
        case None => Batch(b.store, true)
        case Some(t) => Batch(t, false)
  }

  /**
   * As written, a batch, whether it runs through or stops at an exception,
   * only ever deletes events and never touches a Student or the key counter.
   */
  lemma {:induction false} AsWrittenBatchFrame(s: Store, pending: seq<StudentImage>, tf: TensorFlow, env: Environment, show: real -> string)
    ensures var r := ExtractAllAsWritten(s, pending, tf, env, show).store;
      && r.students == s.students && r.nextStudentId == s.nextStudentId
      && r.events.Keys <= s.events.Keys
      && (forall e :: e in r.events ==> r.events[e] == s.events[e])
    decreases |pending|
  {
    if pending != [] {
      AsWrittenBatchFrame(s, pending[..|pending| - 1], tf, env, show);
    }
  }

  /**
   * As written, the emptiness test never fires: an empty vector is stored as a
   * feature, where the corrected turn deletes the event recursively.
   */
  lemma EmptyVectorStoredAsWritten(s: Store, img: StudentImage, tf: TensorFlow, env: Environment, show: real -> string)
    requires ImageIsValid(s, img, env.files)
    requires env.extract(tf, img.imageFileUrl) == Some([])
    ensures ExtractOneAsWritten(s, img, tf, env, show) == Some(StoreFeature(s, img, [], env.now))
    ensures ExtractOne(s, img, tf, env) == DeleteRecursive(s, img)
  {
    assert ToJson([], show) != "";
  }

  /** As written, an exception on the first image ends every prefix of the batch with no record changed. */
  lemma {:induction false} FirstThrowAborts(s: Store, pending: seq<StudentImage>, n: nat, tf: TensorFlow, env: Environment, show: real -> string)
    requires 1 <= n <= |pending|
    requires ImageIsValid(s, pending[0], env.files) && env.extract(tf, pending[0].imageFileUrl).None?
    ensures ExtractAllAsWritten(s, pending[..n], tf, env, show) == Batch(s, true)
  {
    if n == 1 {
      assert pending[..1][..0] == [];
    } else {
      FirstThrowAborts(s, pending, n - 1, tf, env, show);
      assert pending[..n][..n - 1] == pending[..n - 1];
    }
  }

  /**
   * As written, a failed extraction leaves its image pending and the store
   * unchanged, so the next run lists the same image and aborts again: no run
   * ever empties the pending set.
   */
  lemma ThrowAbortsBatchAsWritten(s: Store, pending: seq<StudentImage>, tf: TensorFlow, env: Environment, show: real -> string)
    requires IsPendingList(s, pending) && pending != []
    requires ImageIsValid(s, pending[0], env.files) && env.extract(tf, pending[0].imageFileUrl).None?
    ensures ExtractAllAsWritten(s, pending, tf, env, show) == Batch(s, true)
    ensures pending[0].id in PendingIds(ExtractAllAsWritten(s, pending, tf, env, show).store)
    ensures IsPendingList(ExtractAllAsWritten(s, pending, tf, env, show).store, pending)
  {
    FirstThrowAborts(s, pending, |pending|, tf, env, show);
    assert pending[..|pending|] == pending;
    assert pending[0].id in IdsOf(pending);
  }
}
