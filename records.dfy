/**
 * The records of the enrolment pipeline, as the greenDAO entities hold them,
 * and the record store they live in.
 *
 * Every table is a map from primary key to record. A StudentImage whose
 * `studentImageFeatureId` is 0 has no feature yet. A StudentImageFeature takes
 * the primary key of the StudentImage it was extracted from.
 */
module Records {

  datatype Option<T> = None | Some(value: T)

  datatype StudentImage = StudentImage(
    id: int,
    imageFileUrl: string,
    studentImageFeatureId: int,          // 0: no feature extracted yet
    studentImageCollectionEventId: int)

  datatype StudentImageFeature = StudentImageFeature(
    id: int,
    timeCreated: int,
    featureVector: seq<real>)

  datatype StudentImageCollectionEvent = StudentImageCollectionEvent(
    id: int,
    meanFeatureVector: Option<seq<real>>, // None: not trained yet
    studentId: Option<int>)

  datatype Student = Student(
    id: int,
    uniqueId: string,
    avatar: Option<string>,
    timeCreated: int)

  /** The four tables, and the key the next inserted Student receives. */
  datatype Store = Store(
    images: map<int, StudentImage>,
    features: map<int, StudentImageFeature>,
    events: map<int, StudentImageCollectionEvent>,
    students: map<int, Student>,
    nextStudentId: int)

  /** The TensorFlow network the features are extracted with. */
  datatype TensorFlow = TensorFlow(
    inputSize: int,
    imageMean: int,
    outputSize: int,
    inputLayer: string,
    outputLayer: string,
    modelPath: string)

  /**
   * Everything the pipeline reads from outside the record store: which files
   * exist, where the model and the avatars live, the feature extractor,
   * whether the avatar file exists after the attempt to copy an image to it,
   * the unique-id generator and the clock.
   */
  datatype Environment = Environment(
    files: set<string>,
    modelDirectory: string,
    avatarDirectory: string,
    extract: (TensorFlow, string) -> Option<seq<real>>,
    avatarFileExists: (string, string) -> bool,
    nextUniqueId: set<string> -> string,
    now: int)

  /**
   * Referential integrity of the store, as the pipeline keeps it: keys are the
   * records' ids, an image's feature is either absent (0) or keyed by the
   * image's own id, and a feature exists exactly for the images that point to it.
   */
  ghost predicate ValidStore(s: Store) {
    && (forall k :: k in s.images ==>
          && k > 0
          && s.images[k].id == k
          && (s.images[k].studentImageFeatureId == 0 || s.images[k].studentImageFeatureId == k))
    && (forall k :: k in s.features <==> k in s.images && s.images[k].studentImageFeatureId != 0)
    && (forall k :: k in s.features ==> s.features[k].id == k)
    && (forall k :: k in s.events ==> s.events[k].id == k)
    && (forall k :: k in s.students ==> s.students[k].id == k && k < s.nextStudentId)
  }

  predicate Distinct(ids: seq<int>) {
    forall i, j :: 0 <= i < j < |ids| ==> ids[i] != ids[j]
  }

  function IdsOf(rows: seq<StudentImage>): set<int> {
    set r | r in rows :: r.id
  }

  /** The rows of `rows` are the current records of `images`, once each. */
  ghost predicate CurrentRows(images: map<int, StudentImage>, rows: seq<StudentImage>) {
    && (forall i :: 0 <= i < |rows| ==> rows[i].id in images && images[rows[i].id] == rows[i])
    && (forall i, j :: 0 <= i < j < |rows| ==> rows[i].id != rows[j].id)
  }

  /**
   * A query `where(...).list()` on one table: the keys of the rows that match,
   * each once, in an order the store chooses.
   */
  method Select<V>(table: map<int, V>, matches: V -> bool) returns (ids: seq<int>)
    ensures Distinct(ids)
    ensures forall j :: 0 <= j < |ids| ==> ids[j] in table && matches(table[ids[j]])
    ensures forall k :: k in table && matches(table[k]) ==> k in ids
  {
    ids := [];
    var rest := table.Keys;
    while rest != {}
      invariant rest <= table.Keys
      invariant Distinct(ids)
      invariant forall j :: 0 <= j < |ids| ==> ids[j] in table && matches(table[ids[j]]) && ids[j] !in rest
      invariant forall k :: k in table && k !in rest && matches(table[k]) ==> k in ids
      decreases rest
    {
      NonEmptyHasMember(rest);
      var k :| k in rest;
      if matches(table[k]) {
        ids := ids + [k];
      }
      rest := rest - {k};
    }
  }

  lemma NonEmptyHasMember(s: set<int>)
    requires s != {}
    ensures exists k :: k in s
  {
    if forall k :: k !in s {
      assert false;
    }
  }

  /** The image records behind a list of keys, in the same order. */
  method Rows(images: map<int, StudentImage>, ids: seq<int>) returns (rows: seq<StudentImage>)
    requires forall j :: 0 <= j < |ids| ==> ids[j] in images
    ensures |rows| == |ids|
    ensures forall j :: 0 <= j < |ids| ==> rows[j] == images[ids[j]]
  {
    rows := [];
    for j := 0 to |ids|
      invariant |rows| == j
      invariant forall q :: 0 <= q < j ==> rows[q] == images[ids[q]]
    {
      rows := rows + [images[ids[j]]];
    }
  }
}
