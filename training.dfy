/**
 * What `TrainingHelper.trainClassifier` does to the record store, as functions
 * on `Store` values, and the properties of that behaviour.
 *
 * Every StudentImageCollectionEvent without a mean feature vector receives the
 * mean of its images' feature vectors and one newly created Student, whose
 * avatar is copied from one of the event's images picked at random.
 */
module Training {
  import opened Records
  import opened MeanVector

  /** Keys of the events that have not been trained yet. */
  function UntrainedIds(s: Store): set<int> {
    set e | e in s.events && s.events[e].meanFeatureVector.None?
  }

  /** Keys of the images of event `e`. */
  function MemberIds(s: Store, e: int): set<int> {
    set k | k in s.images && s.images[k].studentImageCollectionEventId == e
  }

  /**
   * What `trainClassifier` takes for granted of every untrained event: it has
   * an image, each of its images has a feature, and the feature vectors share
   * one length (so that they stack into one matrix).
   */
  ghost predicate Trainable(s: Store) {
    forall e :: e in UntrainedIds(s) ==>
      && MemberIds(s, e) != {}
      && (forall k :: k in MemberIds(s, e) ==> s.images[k].studentImageFeatureId in s.features)
      && (forall k, j :: k in MemberIds(s, e) && j in MemberIds(s, e) ==>
            |s.features[s.images[k].studentImageFeatureId].featureVector|
            == |s.features[s.images[j].studentImageFeatureId].featureVector|)
  }

  /**
   * One trained event: its key, its images in the order the store listed
   * them, and the index the random draw picked for the avatar.
   */
  datatype TrainStep = TrainStep(eventId: int, members: seq<StudentImage>, randomIndex: nat)

  /** The feature vectors of `members`, in order. */
  function Vectors(features: map<int, StudentImageFeature>, members: seq<StudentImage>): (vectors: seq<seq<real>>)
    requires forall i :: 0 <= i < |members| ==> members[i].studentImageFeatureId in features
    ensures |vectors| == |members|
  {
    seq(|members|, i requires 0 <= i < |members| => features[members[i].studentImageFeatureId].featureVector)
  }

  ghost predicate StepWellFormed(s: Store, step: TrainStep) {
    && step.eventId in s.events
    && 0 < |step.members|
    && step.randomIndex < |step.members|
    && (forall i :: 0 <= i < |step.members| ==> step.members[i].studentImageFeatureId in s.features)
    && SameLength(Vectors(s.features, step.members))
  }

  /** Whether a step is well formed depends only on the features and the event keys. */
  lemma StepWellFormedFrame(s: Store, t: Store, step: TrainStep)
    requires StepWellFormed(s, step)
    requires t.features == s.features && t.events.Keys == s.events.Keys
    ensures StepWellFormed(t, step)
  {
  }

  /**
   * One step as `trainClassifier` builds it from its queries: an untrained
   * event, exactly its current images, and an index into them.
   */
  ghost predicate PlannedStep(s: Store, step: TrainStep) {
    && step.eventId in UntrainedIds(s)
    && CurrentRows(s.images, step.members)
    && IdsOf(step.members) == MemberIds(s, step.eventId)
    && step.randomIndex < |step.members|
  }

  /** `plan` lists every untrained event once, each with exactly its images. */
  ghost predicate IsTrainingPlan(s: Store, plan: seq<TrainStep>) {
    && (forall i, j :: 0 <= i < j < |plan| ==> plan[i].eventId != plan[j].eventId)
    && (forall i :: 0 <= i < |plan| ==> PlannedStep(s, plan[i]))
    && (forall e :: e in UntrainedIds(s) ==> exists i :: 0 <= i < |plan| && plan[i].eventId == e)
  }

  function AvatarPath(env: Environment, uniqueId: string): string {
    env.avatarDirectory + "/" + uniqueId + ".png"
  }

  function UniqueIds(students: map<int, Student>): set<string> {
    set k | k in students :: students[k].uniqueId
  }

  /**
   * The Student `createStudent` builds: a fresh key, a generated unique id,
   * the avatar path only when the copied avatar file exists, and the time.
   */
  function NewStudent(s: Store, members: seq<StudentImage>, randomIndex: nat, env: Environment): (student: Student)
    requires randomIndex < |members|
    ensures student.id == s.nextStudentId && student.timeCreated == env.now
    ensures student.uniqueId == env.nextUniqueId(UniqueIds(s.students))
    ensures student.avatar.Some? <==> env.avatarFileExists(members[randomIndex].imageFileUrl, AvatarPath(env, student.uniqueId))
    ensures student.avatar.Some? ==> student.avatar.value == AvatarPath(env, student.uniqueId)
  {
    var uniqueId := env.nextUniqueId(UniqueIds(s.students));
    var path := AvatarPath(env, uniqueId);
    var avatar := if env.avatarFileExists(members[randomIndex].imageFileUrl, path) then Some(path) else None;
    Student(s.nextStudentId, uniqueId, avatar, env.now)
  }

  /** `createStudent`: insert the new Student. */
  function CreateStudent(s: Store, members: seq<StudentImage>, randomIndex: nat, env: Environment): (r: Store)
    requires randomIndex < |members|
    ensures r.students.Keys == s.students.Keys + {s.nextStudentId} && r.nextStudentId == s.nextStudentId + 1
    ensures forall k :: k in s.students && k != s.nextStudentId ==> r.students[k] == s.students[k]
    ensures r.images == s.images && r.features == s.features && r.events == s.events
  {
    s.(students := s.students[s.nextStudentId := NewStudent(s, members, randomIndex, env)],
       nextStudentId := s.nextStudentId + 1)
  }

  /** One turn of the loop of `trainClassifier`. */
  function TrainOne(s: Store, step: TrainStep, env: Environment): (r: Store)
    requires StepWellFormed(s, step)
    ensures r.images == s.images && r.features == s.features && r.events.Keys == s.events.Keys
  {
    var event := s.events[step.eventId];
    var mean := Mean(Vectors(s.features, step.members));
    var withStudent := CreateStudent(s, step.members, step.randomIndex, env);
    withStudent.(events := s.events[step.eventId :=
      event.(meanFeatureVector := Some(mean), studentId := Some(s.nextStudentId))])
  }

  /** The loop of `trainClassifier` over `plan`, in order. */
  function TrainAll(s: Store, plan: seq<TrainStep>, env: Environment): (r: Store)
    requires forall i :: 0 <= i < |plan| ==> StepWellFormed(s, plan[i])
    ensures r.images == s.images && r.features == s.features && r.events.Keys == s.events.Keys
    decreases |plan|
  {
    if plan == [] then s
    else
      var before := plan[..|plan| - 1];
      assert forall i :: 0 <= i < |before| ==> before[i] == plan[i];
      var trained := TrainAll(s, before, env);
      StepWellFormedFrame(s, trained, plan[|plan| - 1]);
      TrainOne(trained, plan[|plan| - 1], env)
  }

  /**
   * A step built from an untrained event of a trainable store, with that
   * event's images as the query lists them, satisfies what a turn relies on.
   */
  lemma StepFromQuery(s: Store, step: TrainStep)
    requires Trainable(s) && step.eventId in UntrainedIds(s)
    requires CurrentRows(s.images, step.members) && IdsOf(step.members) == MemberIds(s, step.eventId)
    requires step.randomIndex < |step.members|
    ensures StepWellFormed(s, step)
  {
    forall q | 0 <= q < |step.members|
      ensures step.members[q].studentImageFeatureId in s.features
    {
      assert step.members[q].id in IdsOf(step.members);
    }
    var vectors := Vectors(s.features, step.members);
    forall q | 0 <= q < |vectors|
      ensures |vectors[q]| == |vectors[0]|
    {
      assert step.members[q].id in IdsOf(step.members);
      assert step.members[0].id in IdsOf(step.members);
    }
  }

  /** The plan of a trainable store satisfies what each turn relies on. */
  lemma PlanWellFormed(s: Store, plan: seq<TrainStep>)
    requires Trainable(s) && IsTrainingPlan(s, plan)
    ensures forall i :: 0 <= i < |plan| ==> StepWellFormed(s, plan[i])
  {
    forall i | 0 <= i < |plan|
      ensures StepWellFormed(s, plan[i])
    {
      StepFromQuery(s, plan[i]);
    }
  }

  /** The avatar is set, to the path named after the unique id, exactly when that file exists after the attempt to copy the picked image there. */
  ghost predicate AvatarFromPick(env: Environment, student: Student, step: TrainStep) {
    && step.randomIndex < |step.members|
    && var path := AvatarPath(env, student.uniqueId);
       student.avatar == if env.avatarFileExists(step.members[step.randomIndex].imageFileUrl, path) then Some(path) else None
  }

  /** One turn inserts the Student `createStudent` builds under the next key. */
  lemma TrainOneStudents(s: Store, step: TrainStep, env: Environment)
    requires StepWellFormed(s, step)
    ensures var r := TrainOne(s, step, env);
      && r.nextStudentId == s.nextStudentId + 1
      && r.students == s.students[s.nextStudentId := NewStudent(s, step.members, step.randomIndex, env)]
  {
  }

  /** One turn sets the mean vector and the Student of its own event only. */
  lemma TrainOneEvents(s: Store, step: TrainStep, env: Environment)
    requires StepWellFormed(s, step)
    ensures TrainOne(s, step, env).events == s.events[step.eventId := s.events[step.eventId].(
              meanFeatureVector := Some(Mean(Vectors(s.features, step.members))),
              studentId := Some(s.nextStudentId))]
  {
  }

  /** One turn leaves every other event as it was. */
  lemma TrainOneSparesOthers(s: Store, step: TrainStep, e: int, env: Environment)
    requires StepWellFormed(s, step) && e in s.events && e != step.eventId
    ensures TrainOne(s, step, env).events[e] == s.events[e]
  {
  }

  /** One turn keeps the store consistent, and the new Student's key was free. */
  lemma TrainOneKeepsValid(s: Store, step: TrainStep, env: Environment)
    requires ValidStore(s) && StepWellFormed(s, step)
    ensures s.nextStudentId !in s.students
    ensures ValidStore(TrainOne(s, step, env))
  {
  }

  /** `TrainAll` over a non-empty plan is one more turn after the plan's prefix. */
  lemma TrainAllLast(s: Store, plan: seq<TrainStep>, before: seq<TrainStep>, env: Environment)
    requires forall q :: 0 <= q < |plan| ==> StepWellFormed(s, plan[q])
    requires plan != [] && before == plan[..|plan| - 1]
    ensures forall q :: 0 <= q < |before| ==> before[q] == plan[q] && StepWellFormed(s, before[q])
    ensures StepWellFormed(TrainAll(s, before, env), plan[|plan| - 1])
    ensures TrainAll(s, plan, env) == TrainOne(TrainAll(s, before, env), plan[|plan| - 1], env)
  {
    StepWellFormedFrame(s, TrainAll(s, before, env), plan[|plan| - 1]);
  }

  /** Every turn advances the Student key counter by one. */
  lemma {:induction false} TrainAllNext(s: Store, plan: seq<TrainStep>, env: Environment)
    requires forall q :: 0 <= q < |plan| ==> StepWellFormed(s, plan[q])
    ensures TrainAll(s, plan, env).nextStudentId == s.nextStudentId + |plan|
  {
    if plan != [] {
      var before := plan[..|plan| - 1];
      TrainAllLast(s, plan, before, env);
      TrainAllNext(s, before, env);
      TrainOneStudents(TrainAll(s, before, env), plan[|plan| - 1], env);
    }
  }

  /**
   * Training the events of `plan` keeps the store consistent, keeps every
   * existing Student and adds exactly one new Student per event, each under a
   * key no Student had before.
   */
  lemma {:induction false} TrainAllStudents(s: Store, plan: seq<TrainStep>, env: Environment)
    requires ValidStore(s)
    requires forall q :: 0 <= q < |plan| ==> StepWellFormed(s, plan[q])
    ensures var t := TrainAll(s, plan, env);
      && ValidStore(t)
      && t.nextStudentId == s.nextStudentId + |plan|
      && |t.students| == |s.students| + |plan|
      && (forall k :: k in s.students ==> k in t.students && t.students[k] == s.students[k])
      && (forall k :: k in t.students && k !in s.students ==> s.nextStudentId <= k < t.nextStudentId)
  {
    if plan != [] {
      var before := plan[..|plan| - 1];
      TrainAllLast(s, plan, before, env);
      TrainAllStudents(s, before, env);
      var mid := TrainAll(s, before, env);
      TrainOneStudents(mid, plan[|plan| - 1], env);
      TrainOneKeepsValid(mid, plan[|plan| - 1], env);
    }
  }

  /**
   * The Student created for the i-th event of `plan` has key
   * `nextStudentId + i`, and its avatar comes from the image the draw picked.
   */
  lemma {:induction false} TrainAllAvatar(s: Store, plan: seq<TrainStep>, i: nat, env: Environment)
    requires forall q :: 0 <= q < |plan| ==> StepWellFormed(s, plan[q])
    requires i < |plan|
    ensures var t := TrainAll(s, plan, env);
      && s.nextStudentId + i in t.students
      && AvatarFromPick(env, t.students[s.nextStudentId + i], plan[i])
  {
    var before := plan[..|plan| - 1];
    TrainAllLast(s, plan, before, env);
    TrainAllNext(s, before, env);
    TrainOneStudents(TrainAll(s, before, env), plan[|plan| - 1], env);
    if i < |plan| - 1 {
      TrainAllAvatar(s, before, i, env);
    }
  }

  /**
   * Training the events of `plan` (each listed once) gives the i-th event the
   * mean of its images' feature vectors and links it to the Student with key
   * `nextStudentId + i`.
   */
  lemma {:induction false} TrainAllTrainsEvent(s: Store, plan: seq<TrainStep>, i: nat, env: Environment)
    requires forall q :: 0 <= q < |plan| ==> StepWellFormed(s, plan[q])
    requires forall p, q :: 0 <= p < q < |plan| ==> plan[p].eventId != plan[q].eventId
    requires i < |plan|
    ensures TrainAll(s, plan, env).events[plan[i].eventId] == s.events[plan[i].eventId].(
              meanFeatureVector := Some(Mean(Vectors(s.features, plan[i].members))),
              studentId := Some(s.nextStudentId + i))
  {
    var n := |plan| - 1;
    if i < n {
      var before := plan[..n];
      assert forall q :: 0 <= q < n ==> before[q] == plan[q];
      var step := plan[i];
      assert before[i] == step;
      TrainAllTrainsEvent(s, before, i, env);
      TrainAllLastSpares(s, plan, before, step.eventId, env);
    } else {
      assert plan[i] == plan[|plan| - 1];
      TrainAllLastTrains(s, plan, env);
    }
  }

  /** The last turn of a plan leaves the other events as the earlier turns left them. */
  lemma TrainAllLastSpares(s: Store, plan: seq<TrainStep>, before: seq<TrainStep>, e: int, env: Environment)
    requires forall q :: 0 <= q < |plan| ==> StepWellFormed(s, plan[q])
    requires plan != [] && before == plan[..|plan| - 1]
    requires e in s.events && e != plan[|plan| - 1].eventId
    ensures forall q :: 0 <= q < |before| ==> StepWellFormed(s, before[q])
    ensures TrainAll(s, plan, env).events[e] == TrainAll(s, before, env).events[e]
  {
    TrainAllLast(s, plan, before, env);
    TrainOneSparesOthers(TrainAll(s, before, env), plan[|plan| - 1], e, env);
  }

  /** The last turn of a plan trains the last event, with the Student the earlier turns left the key for. */
  lemma TrainAllLastTrains(s: Store, plan: seq<TrainStep>, env: Environment)
    requires forall q :: 0 <= q < |plan| ==> StepWellFormed(s, plan[q])
    requires forall p, q :: 0 <= p < q < |plan| ==> plan[p].eventId != plan[q].eventId
    requires plan != []
    ensures var last := plan[|plan| - 1];
      TrainAll(s, plan, env).events[last.eventId] == s.events[last.eventId].(
        meanFeatureVector := Some(Mean(Vectors(s.features, last.members))),
        studentId := Some(s.nextStudentId + |plan| - 1))
  {
    var n := |plan| - 1;
    var before := plan[..n];
    var last := plan[n];
    TrainAllLastEvent(s, plan, before, env);
    var mid := TrainAll(s, before, env);
    TrainAllNext(s, before, env);
    TrainAllSparesOthers(s, before, last.eventId, env);
    var event := s.events[last.eventId];
    assert mid.events[last.eventId] == event;
    assert mid.nextStudentId == s.nextStudentId + n;
  }

  /** The last turn of a plan trains its event on top of what the earlier turns left. */
  lemma TrainAllLastEvent(s: Store, plan: seq<TrainStep>, before: seq<TrainStep>, env: Environment)
    requires forall q :: 0 <= q < |plan| ==> StepWellFormed(s, plan[q])
    requires plan != [] && before == plan[..|plan| - 1]
    ensures forall q :: 0 <= q < |before| ==> before[q] == plan[q] && StepWellFormed(s, before[q])
    ensures var mid := TrainAll(s, before, env); var last := plan[|plan| - 1];
      TrainAll(s, plan, env).events[last.eventId] == mid.events[last.eventId].(
        meanFeatureVector := Some(Mean(Vectors(s.features, last.members))),
        studentId := Some(mid.nextStudentId))
  {
    TrainAllLast(s, plan, before, env);
    TrainOneEvents(TrainAll(s, before, env), plan[|plan| - 1], env);
  }

  /** An event `plan` does not list is left as it was. */
  lemma {:induction false} TrainAllSparesOthers(s: Store, plan: seq<TrainStep>, e: int, env: Environment)
    requires forall q :: 0 <= q < |plan| ==> StepWellFormed(s, plan[q])
    requires e in s.events
    requires forall q :: 0 <= q < |plan| ==> plan[q].eventId != e
    ensures TrainAll(s, plan, env).events[e] == s.events[e]
  {
    if plan != [] {
      var before := plan[..|plan| - 1];
      TrainAllLast(s, plan, before, env);
      TrainAllSparesOthers(s, before, e, env);
      TrainOneEvents(TrainAll(s, before, env), plan[|plan| - 1], env);
    }
  }

  /** Events that were already trained keep their mean vector and their Student. */
  lemma TrainedEventsUntouched(s: Store, plan: seq<TrainStep>, env: Environment)
    requires Trainable(s) && IsTrainingPlan(s, plan)
    ensures forall i :: 0 <= i < |plan| ==> StepWellFormed(s, plan[i])
    ensures forall e :: e in s.events && e !in UntrainedIds(s) ==> TrainAll(s, plan, env).events[e] == s.events[e]
  {
    PlanWellFormed(s, plan);
    forall e | e in s.events && e !in UntrainedIds(s)
      ensures TrainAll(s, plan, env).events[e] == s.events[e]
    {
      TrainAllSparesOthers(s, plan, e, env);
    }
  }

  /** After `trainClassifier` on a trainable store, no event is untrained. */
  lemma TrainClassifierTrainsAll(s: Store, plan: seq<TrainStep>, env: Environment)
    requires Trainable(s) && IsTrainingPlan(s, plan)
    ensures forall i :: 0 <= i < |plan| ==> StepWellFormed(s, plan[i])
    ensures UntrainedIds(TrainAll(s, plan, env)) == {}
  {
    TrainedEventsUntouched(s, plan, env);
    var t := TrainAll(s, plan, env);
    forall e | e in UntrainedIds(t)
      ensures false
    {
      if e in UntrainedIds(s) {
        var i :| 0 <= i < |plan| && plan[i].eventId == e;
        TrainAllTrainsEvent(s, plan, i, env);
      }
    }
  }

  /**
   * `trainClassifier` is idempotent on a trainable store: a second run finds
   * no untrained event, so its plan is empty and it changes nothing.
   */
  lemma TrainClassifierIdempotent(s: Store, plan: seq<TrainStep>, env: Environment)
    requires ValidStore(s) && Trainable(s) && IsTrainingPlan(s, plan)
    ensures forall i :: 0 <= i < |plan| ==> StepWellFormed(s, plan[i])
    ensures var t := TrainAll(s, plan, env);
      && ValidStore(t)
      && (forall again :: IsTrainingPlan(t, again) ==> again == [] && TrainAll(t, again, env) == t)
  {
    TrainClassifierTrainsAll(s, plan, env);
    TrainAllStudents(s, plan, env);
    var t := TrainAll(s, plan, env);
    forall again: seq<TrainStep> | IsTrainingPlan(t, again)
      ensures again == []
    {
      if again != [] {
        NoUntrainedNoPlan(t, again);
        assert false;
      }
    }
  }

  lemma NoUntrainedNoPlan(t: Store, plan: seq<TrainStep>)
    requires plan != [] && IsTrainingPlan(t, plan)
    ensures UntrainedIds(t) != {}
  {
    assert plan[0].eventId in UntrainedIds(t);
  }
}
