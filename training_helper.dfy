/**
 * `TrainingHelper` itself: the DAO tables it updates in place, and its
 * methods, each proved to leave the tables as the specification functions of
 * `Extraction` and `Training` say.
 *
 * The order in which a query lists its rows and the random avatar pick are
 * the store's and the runtime's choice; the methods return what was chosen
 * (`pending`, `plan`, `randomIndex`), and their contracts hold for every choice.
 */
module Authentication {
  import opened Records
  import opened MeanVector
  import Extraction
  import Training

  class TrainingHelper {
    var images: map<int, StudentImage>
    var features: map<int, StudentImageFeature>
    var events: map<int, StudentImageCollectionEvent>
    var students: map<int, Student>
    var nextStudentId: int

    /** The tables as one value. */
    function State(): Store
      reads this
    {
      Store(images, features, events, students, nextStudentId)
    }

    ghost predicate Valid()
      reads this
    {
      ValidStore(State())
    }

    constructor (s: Store)
      requires ValidStore(s)
      ensures State() == s && Valid()
    {
      images, features, events, students, nextStudentId :=
        s.images, s.features, s.events, s.students, s.nextStudentId;
    }

    /**
     * `extractFeatures`: list the images whose feature id is 0, then, if the
     * model is present, validate each and store its feature or delete its
     * event recursively.
     */
    method ExtractFeatures(env: Environment) returns (pending: seq<StudentImage>)
      requires Valid()
      modifies this
      ensures Extraction.IsPendingList(old(State()), pending)
      ensures State() == Extraction.ExtractFeatures(old(State()), pending, env)
      ensures Valid()
    {
      ghost var s0 := State();
      var ids := Select(images, (r: StudentImage) => r.studentImageFeatureId == 0);
      pending := Rows(images, ids);
      PendingQuery(s0, ids, pending);
      if |pending| > 0 {
        var tensorFlow := Extraction.GetInitializedTensorFlow(env);
        if tensorFlow.Some? {
          var tf := tensorFlow.value;
          for i := 0 to |pending|
            invariant State() == Extraction.ExtractAll(s0, pending[..i], tf, env)
          {
            assert pending[..i + 1][..i] == pending[..i];
            ExtractImage(pending[i], tf, env);
          }
          assert pending[..|pending|] == pending;
          assert State() == Extraction.ExtractAll(s0, pending, tf, env);
          assert Valid() by { Extraction.ExtractFeaturesIdempotent(s0, pending, env); }
        }
      }
    }

    /**
     * The body of the loop of `extractFeatures`: validate `img`, then store its
     * feature vector, or delete its event recursively when extraction fails.
     */
    method ExtractImage(img: StudentImage, tf: TensorFlow, env: Environment)
      modifies this
      ensures State() == Extraction.ExtractOne(old(State()), img, tf, env)
    {
      var valid := IsStudentImageValid(img, env);
      if valid {
        match env.extract(tf, img.imageFileUrl)
        case None =>
          DeleteStudentImagesRecursive(img);
        case Some(vector) =>
          if |vector| == 0 {
            DeleteStudentImagesRecursive(img);
          } else {
            StoreStudentImageFeature(img, vector, env.now);
          }
      }
    }

    /**
     * `isStudentImageValid`: an image whose event is gone is deleted alone; one
     * whose file is missing deletes its event recursively; both are invalid.
     */
    method IsStudentImageValid(img: StudentImage, env: Environment) returns (valid: bool)
      modifies this
      ensures valid == Extraction.ImageIsValid(old(State()), img, env.files)
      ensures State() == Extraction.AfterValidation(old(State()), img, env.files)
      ensures old(Valid()) && img.id !in old(features) ==> Valid()
    {
      ghost var s0 := State();
      valid := true;
      if img.studentImageCollectionEventId !in events {
        images := images - {img.id};
        valid := false;
        if ValidStore(s0) && img.id !in s0.features {
          Extraction.DeleteImageKeepsValid(s0, img);
        }
      } else if img.imageFileUrl !in env.files {
        DeleteStudentImagesRecursive(img);
        valid := false;
      }
    }

    /**
     * `deleteStudentImagesRecursive`: delete the images of `img`'s event that
     * have a feature, one by one with their features, then the event, then `img`.
     */
    method DeleteStudentImagesRecursive(img: StudentImage)
      modifies this
      ensures State() == Extraction.DeleteRecursive(old(State()), img)
      ensures old(Valid()) && img.id !in old(features) ==> Valid()
    {
      ghost var s0 := State();
      var eventId := img.studentImageCollectionEventId;
      var ids := Select(images, (r: StudentImage) =>
        r.studentImageCollectionEventId == eventId && r.studentImageFeatureId != 0);
      var toDelete := Rows(images, ids);
      DeleteRows(ids, toDelete, Extraction.Siblings(s0, img));
      events := events - {eventId};
      images := images - {img.id};
      if ValidStore(s0) && img.id !in s0.features {
        Extraction.DeleteRecursiveKeepsValid(s0, img);
      }
    }

    /**
     * The loop of `deleteStudentImagesRecursive`: delete each listed image
     * together with its feature. `keys` is the set the listing enumerates.
     */
    method DeleteRows(ids: seq<int>, rows: seq<StudentImage>, ghost keys: set<int>)
      requires |rows| == |ids|
      requires forall j :: 0 <= j < |ids| ==> ids[j] in images && rows[j] == images[ids[j]]
      requires forall j :: 0 <= j < |ids| ==> ids[j] in keys
      requires forall k :: k in keys ==> k in ids
      modifies this
      ensures keys <= old(images).Keys
      ensures images == old(images) - keys
      ensures features == old(features) - Extraction.FeatureIdsOf(old(images), keys)
      ensures events == old(events) && students == old(students) && nextStudentId == old(nextStudentId)
    {
      ghost var gone: set<int> := {};
      for i := 0 to |rows|
        invariant events == old(events) && students == old(students) && nextStudentId == old(nextStudentId)
        invariant gone <= keys && gone <= old(images).Keys
        invariant forall q :: 0 <= q < i ==> ids[q] in gone
        invariant images == old(images) - gone
        invariant features == old(features) - Extraction.FeatureIdsOf(old(images), gone)
      {
        images := images - {ids[i]};
        features := features - {rows[i].studentImageFeatureId};
        Extraction.FeatureIdsOfAdd(old(images), gone, ids[i]);
        gone := gone + {ids[i]};
      }
      ListedAll(ids, keys, gone);
    }

    /** `storeStudentImageFeature`: insert the feature under the image's id and link the image to it. */
    method StoreStudentImageFeature(img: StudentImage, vector: seq<real>, now: int)
      modifies this
      ensures State() == Extraction.StoreFeature(old(State()), img, vector, now)
      ensures old(Valid()) && img.id in old(images) ==> Valid()
    {
      ghost var s0 := State();
      var feature := StudentImageFeature(img.id, now, vector);
      var linked := img.(studentImageFeatureId := feature.id);
      features := features[feature.id := feature];
      images := images[img.id := linked];
      if ValidStore(s0) && img.id in s0.images {
        Extraction.StoreFeatureKeepsValid(s0, img, vector, now);
      }
    }

    /**
     * `trainClassifier`: for every event without a mean vector, average its
     * images' feature vectors, create a Student, and link both to the event.
     */
    method TrainClassifier(env: Environment) returns (plan: seq<Training.TrainStep>)
      requires Valid() && Training.Trainable(State())
      modifies this
      ensures Training.IsTrainingPlan(old(State()), plan)
      ensures forall i :: 0 <= i < |plan| ==> Training.StepWellFormed(old(State()), plan[i])
      ensures State() == Training.TrainAll(old(State()), plan, env)
      ensures Valid()
    {
      ghost var s0 := State();
      var eventIds := UntrainedEventIds();
      plan := [];
      for i := 0 to |eventIds|
        invariant |plan| == i
        invariant forall q :: 0 <= q < i ==> plan[q].eventId == eventIds[q]
        invariant forall q :: 0 <= q < i ==> Training.PlannedStep(s0, plan[q])
        invariant forall q :: 0 <= q < i ==> Training.StepWellFormed(s0, plan[q])
        invariant State() == Training.TrainAll(s0, plan, env)
      {
        plan := TrainNextListed(s0, eventIds, plan, env);
      }
      PlanComplete(s0, eventIds, plan, env);
    }

    /** The query of `trainClassifier`: the ids of the events without a mean vector, each once. */
    method UntrainedEventIds() returns (eventIds: seq<int>)
      ensures Distinct(eventIds)
      ensures forall j :: 0 <= j < |eventIds| ==> eventIds[j] in Training.UntrainedIds(State())
      ensures forall k :: k in Training.UntrainedIds(State()) ==> k in eventIds
    {
      eventIds := Select(events, (e: StudentImageCollectionEvent) => e.meanFeatureVector.None?);
    }

    /** The turn of the loop of `trainClassifier` that trains the next listed event. */
    method TrainNextListed(ghost s0: Store, eventIds: seq<int>, plan: seq<Training.TrainStep>, env: Environment)
      returns (extended: seq<Training.TrainStep>)
      requires ValidStore(s0) && Training.Trainable(s0)
      requires Distinct(eventIds) && |plan| < |eventIds|
      requires forall j :: 0 <= j < |eventIds| ==> eventIds[j] in Training.UntrainedIds(s0)
      requires forall q :: 0 <= q < |plan| ==> plan[q].eventId == eventIds[q]
      requires forall q :: 0 <= q < |plan| ==> Training.PlannedStep(s0, plan[q])
      requires forall q :: 0 <= q < |plan| ==> Training.StepWellFormed(s0, plan[q])
      requires State() == Training.TrainAll(s0, plan, env)
      modifies this
      ensures |extended| == |plan| + 1 && extended[..|plan|] == plan
      ensures forall q :: 0 <= q < |extended| ==> extended[q].eventId == eventIds[q]
      ensures forall q :: 0 <= q < |extended| ==> Training.PlannedStep(s0, extended[q])
      ensures forall q :: 0 <= q < |extended| ==> Training.StepWellFormed(s0, extended[q])
      ensures State() == Training.TrainAll(s0, extended, env)
    {
      NextEventUntrained(s0, eventIds, plan);
      var step := TrainEvent(s0, plan, eventIds[|plan|], env);
      PlanGrows(s0, eventIds, plan, step);
      extended := plan + [step];
      assert extended[..|plan|] == plan;
    }

    /**
     * One turn of the loop of `trainClassifier`: average the feature vectors
     * of the event's images, create its Student, and link both to the event.
     */
    method TrainEvent(ghost s0: Store, ghost plan: seq<Training.TrainStep>, eventId: int, env: Environment)
      returns (step: Training.TrainStep)
      requires ValidStore(s0) && Training.Trainable(s0) && eventId in Training.UntrainedIds(s0)
      requires forall q :: 0 <= q < |plan| ==> Training.StepWellFormed(s0, plan[q]) && plan[q].eventId != eventId
      requires State() == Training.TrainAll(s0, plan, env)
      modifies this
      ensures step.eventId == eventId && Training.PlannedStep(s0, step) && Training.StepWellFormed(s0, step)
      ensures State() == Training.TrainAll(s0, plan + [step], env)
    {
      ghost var mid := State();
      var members := GetStudentImages(eventId);
      Training.StepFromQuery(s0, Training.TrainStep(eventId, members, 0));
      TrainNextEvent(s0, plan, eventId, env);
      var event := events[eventId];
      var vectors := FeatureVectors(members);
      var student, randomIndex := CreateStudent(members, env);
      step := Training.TrainStep(eventId, members, randomIndex);
      Training.StepFromQuery(s0, step);
      var mean := Mean(vectors);
      events := events[eventId := event.(meanFeatureVector := Some(mean), studentId := Some(student.id))];
      TrainNext(s0, plan, step, env);
      Training.TrainOneStudents(mid, step, env);
      Training.TrainOneEvents(mid, step, env);
      assert State().students == Training.TrainOne(mid, step, env).students;
      assert State().events == Training.TrainOne(mid, step, env).events;
    }

    /** `getStudentImages()` of an event: its images, each once, in the order the store lists them. */
    method GetStudentImages(eventId: int) returns (members: seq<StudentImage>)
      requires forall k :: k in images ==> images[k].id == k
      ensures CurrentRows(images, members)
      ensures IdsOf(members) == Training.MemberIds(State(), eventId)
    {
      var memberIds := Select(images, (r: StudentImage) => r.studentImageCollectionEventId == eventId);
      members := Rows(images, memberIds);
      MemberQuery(State(), eventId, memberIds, members);
    }

    /** The feature vectors of `members`, stacked in order, as the inner loop of `trainClassifier` reads them. */
    method FeatureVectors(members: seq<StudentImage>) returns (vectors: seq<seq<real>>)
      requires forall i :: 0 <= i < |members| ==> members[i].studentImageFeatureId in features
      ensures |vectors| == |members|
      ensures forall i :: 0 <= i < |members| ==>
        vectors[i] == features[members[i].studentImageFeatureId].featureVector
      ensures vectors == Training.Vectors(features, members)
    {
      vectors := [];
      for j := 0 to |members|
        invariant |vectors| == j
        invariant forall q :: 0 <= q < j ==> vectors[q] == features[members[q].studentImageFeatureId].featureVector
      {
        vectors := vectors + [features[members[j].studentImageFeatureId].featureVector];
      }
    }

    /**
     * `createStudent`: a Student with a generated unique id, the avatar copied
     * from the image at a random index, and the current time, inserted under
     * the next key.
     */
    method CreateStudent(members: seq<StudentImage>, env: Environment) returns (student: Student, randomIndex: nat)
      requires |members| > 0
      modifies this
      ensures randomIndex < |members|
      ensures student == Training.NewStudent(old(State()), members, randomIndex, env)
      ensures State() == Training.CreateStudent(old(State()), members, randomIndex, env)
    {
      var uniqueId := env.nextUniqueId(Training.UniqueIds(students));
      randomIndex := 0;
      randomIndex :| 0 <= randomIndex < |members|;
      var avatarFile := Training.AvatarPath(env, uniqueId);
      var avatar := None;
      if env.avatarFileExists(members[randomIndex].imageFileUrl, avatarFile) {
        avatar := Some(avatarFile);
      }
      student := Student(nextStudentId, uniqueId, avatar, env.now);
      students := students[nextStudentId := student];
      nextStudentId := nextStudentId + 1;
    }
  }

  // ---------------------------------------------------------------------------
  // What the queries return

  /** The images listed by the feature-id-0 query are exactly the pending ones. */
  lemma PendingQuery(s: Store, ids: seq<int>, rows: seq<StudentImage>)
    requires ValidStore(s) && Distinct(ids)
    requires forall j :: 0 <= j < |ids| ==> ids[j] in s.images && s.images[ids[j]].studentImageFeatureId == 0
    requires forall k :: k in s.images && s.images[k].studentImageFeatureId == 0 ==> k in ids
    requires |rows| == |ids| && forall j :: 0 <= j < |ids| ==> rows[j] == s.images[ids[j]]
    ensures Extraction.IsPendingList(s, rows)
  {
    forall k | k in Extraction.PendingIds(s)
      ensures k in IdsOf(rows)
    {
      var j :| 0 <= j < |ids| && ids[j] == k;
      assert rows[j].id == k;
    }
  }

  /** A set every listed key has joined, and that holds nothing unlisted, is the listed set. */
  lemma ListedAll(ids: seq<int>, keys: set<int>, gone: set<int>)
    requires forall k :: k in keys ==> k in ids
    requires forall q :: 0 <= q < |ids| ==> ids[q] in gone
    requires gone <= keys
    ensures gone == keys
  {
    forall k | k in keys
      ensures k in gone
    {
      var q :| 0 <= q < |ids| && ids[q] == k;
    }
  }

  /** The images listed by the query for an event's images are exactly its members. */
  lemma MemberQuery(s: Store, e: int, ids: seq<int>, rows: seq<StudentImage>)
    requires (forall k :: k in s.images ==> s.images[k].id == k) && Distinct(ids)
    requires forall j :: 0 <= j < |ids| ==> ids[j] in s.images && s.images[ids[j]].studentImageCollectionEventId == e
    requires forall k :: k in s.images && s.images[k].studentImageCollectionEventId == e ==> k in ids
    requires |rows| == |ids| && forall j :: 0 <= j < |ids| ==> rows[j] == s.images[ids[j]]
    ensures CurrentRows(s.images, rows) && IdsOf(rows) == Training.MemberIds(s, e)
  {
    forall i | 0 <= i < |rows|
      ensures rows[i].id == ids[i]
    {
    }
    forall k | k in Training.MemberIds(s, e)
      ensures k in IdsOf(rows)
    {
      var j :| 0 <= j < |ids| && ids[j] == k;
      assert rows[j].id == k;
    }
  }

  /** Before its turn, an event of the plan still has the record it had at the start. */
  lemma TrainNextEvent(s0: Store, plan: seq<Training.TrainStep>, eventId: int, env: Environment)
    requires forall q :: 0 <= q < |plan| ==> Training.StepWellFormed(s0, plan[q])
    requires eventId in s0.events
    requires forall q :: 0 <= q < |plan| ==> plan[q].eventId != eventId
    ensures Training.TrainAll(s0, plan, env).events[eventId] == s0.events[eventId]
  {
    Training.TrainAllSparesOthers(s0, plan, eventId, env);
  }

  /** Appending a step to the plan appends one turn of the loop. */
  lemma TrainNext(s0: Store, plan: seq<Training.TrainStep>, step: Training.TrainStep, env: Environment)
    requires forall q :: 0 <= q < |plan| ==> Training.StepWellFormed(s0, plan[q])
    requires Training.StepWellFormed(s0, step)
    ensures forall q :: 0 <= q < |plan + [step]| ==> Training.StepWellFormed(s0, (plan + [step])[q])
    ensures Training.StepWellFormed(Training.TrainAll(s0, plan, env), step)
    ensures Training.TrainAll(s0, plan + [step], env) == Training.TrainOne(Training.TrainAll(s0, plan, env), step, env)
  {
    var extended := plan + [step];
    assert extended[..|extended| - 1] == plan;
    Training.TrainAllLast(s0, extended, plan, env);
  }

  /** The next event the loop trains is untrained and not yet in the plan. */
  lemma NextEventUntrained(s0: Store, eventIds: seq<int>, plan: seq<Training.TrainStep>)
    requires Distinct(eventIds) && |plan| < |eventIds|
    requires forall j :: 0 <= j < |eventIds| ==> eventIds[j] in Training.UntrainedIds(s0)
    requires forall q :: 0 <= q < |plan| ==> plan[q].eventId == eventIds[q]
    ensures eventIds[|plan|] in Training.UntrainedIds(s0)
    ensures forall q :: 0 <= q < |plan| ==> plan[q].eventId != eventIds[|plan|]
  {
  }

  /** The loop invariants of `trainClassifier` carry over to the plan with one more step. */
  lemma PlanGrows(s0: Store, eventIds: seq<int>, plan: seq<Training.TrainStep>, step: Training.TrainStep)
    requires |plan| < |eventIds|
    requires forall q :: 0 <= q < |plan| ==> plan[q].eventId == eventIds[q]
    requires forall q :: 0 <= q < |plan| ==> Training.PlannedStep(s0, plan[q])
    requires forall q :: 0 <= q < |plan| ==> Training.StepWellFormed(s0, plan[q])
    requires step.eventId == eventIds[|plan|] && Training.PlannedStep(s0, step) && Training.StepWellFormed(s0, step)
    ensures forall q :: 0 <= q < |plan| + 1 ==> (plan + [step])[q].eventId == eventIds[q]
    ensures forall q :: 0 <= q < |plan| + 1 ==> Training.PlannedStep(s0, (plan + [step])[q])
    ensures forall q :: 0 <= q < |plan| + 1 ==> Training.StepWellFormed(s0, (plan + [step])[q])
  {
  }

  /** After the loop, the plan covers every untrained event and the store is consistent. */
  lemma PlanComplete(s0: Store, eventIds: seq<int>, plan: seq<Training.TrainStep>, env: Environment)
    requires ValidStore(s0) && Distinct(eventIds)
    requires forall k :: k in Training.UntrainedIds(s0) ==> k in eventIds
    requires |plan| == |eventIds|
    requires forall q :: 0 <= q < |plan| ==> plan[q].eventId == eventIds[q]
    requires forall q :: 0 <= q < |plan| ==> Training.PlannedStep(s0, plan[q])
    requires forall q :: 0 <= q < |plan| ==> Training.StepWellFormed(s0, plan[q])
    ensures Training.IsTrainingPlan(s0, plan)
    ensures ValidStore(Training.TrainAll(s0, plan, env))
  {
    PlanFromQuery(s0, eventIds, plan);
    Training.TrainAllStudents(s0, plan, env);
  }

  /** A plan built over the list of untrained events is a training plan. */
  lemma PlanFromQuery(s: Store, eventIds: seq<int>, plan: seq<Training.TrainStep>)
    requires Distinct(eventIds)
    requires forall k :: k in Training.UntrainedIds(s) ==> k in eventIds
    requires |plan| == |eventIds|
    requires forall q :: 0 <= q < |plan| ==> plan[q].eventId == eventIds[q] && Training.PlannedStep(s, plan[q])
    ensures Training.IsTrainingPlan(s, plan)
  {
    forall e | e in Training.UntrainedIds(s)
      ensures exists i :: 0 <= i < |plan| && plan[i].eventId == e
    {
      var j :| 0 <= j < |eventIds| && eventIds[j] == e;
      assert plan[j].eventId == e;
    }
  }
}
