/**
 * The schema upgrade of the app's database, `CustomDaoMaster.DevOpenHelper.onUpgrade`.
 *
 * Each migration step is guarded by its own test `oldVersion < threshold`,
 * and the steps are issued in the order of their thresholds. What a step does
 * to the tables (dropping, creating, altering, migrating) happens in code that
 * is not part of this model; here every step is an action appended to the
 * database's log, so the log records which steps ran and in which order.
 */
module CustomDaoMaster {

  /** The DAO classes whose tables a migration rebuilds. */
  datatype Dao = AllophoneDao | JoinNumbersWithWordsDao | StoryBookDao | WordDao | LetterDao

  datatype SchemaAction =
    | DropAll(ifExists: bool)
    | CreateAll
    | Sql(statement: string)
    | MigrateDaos(daos: seq<Dao>)

  /** The statement that adds the usage count column to the allophone table. */
  const AddAllophoneUsageCount: string :=
    "ALTER TABLE ALLOPHONE ADD COLUMN `USAGE_COUNT` INTEGER NOT NULL DEFAULT 0;"

  /** A step of the upgrade: its actions run when the old version is below `threshold`. */
  datatype Step = Step(threshold: int, actions: seq<SchemaAction>)

  /** The steps of `onUpgrade`, in the order it issues them. */
  const Steps: seq<Step> := [
    Step(2000000, [DropAll(true), CreateAll]),
    Step(2000001, [Sql(AddAllophoneUsageCount)]),
    Step(2000003, [MigrateDaos([AllophoneDao, JoinNumbersWithWordsDao])]),
    Step(2000004, [MigrateDaos([StoryBookDao])]),
    Step(2000005, [MigrateDaos([WordDao])]),
    Step(2000007, [MigrateDaos([AllophoneDao, LetterDao])])
  ]

  /** The version from which on no step runs. */
  const CurrentVersion: int := 2000007

  predicate Ascending(steps: seq<Step>) {
    forall i, j :: 0 <= i < j < |steps| ==> steps[i].threshold < steps[j].threshold
  }

  /** The steps whose guard holds for `oldVersion`, in table order. */
  function Due(steps: seq<Step>, oldVersion: int): seq<Step> {
    if steps == [] then []
    else if oldVersion < steps[0].threshold then [steps[0]] + Due(steps[1..], oldVersion)
    else Due(steps[1..], oldVersion)
  }

  /** The actions of `steps`, one step after the other. */
  function Flatten(steps: seq<Step>): seq<SchemaAction> {
    if steps == [] then [] else steps[0].actions + Flatten(steps[1..])
  }

  /** Only steps of the table whose guard holds are due. */
  lemma {:induction false} DueSound(steps: seq<Step>, oldVersion: int, step: Step)
    requires step in Due(steps, oldVersion)
    ensures step in steps && oldVersion < step.threshold
  {
    if oldVersion < steps[0].threshold && step == steps[0] {
    } else {
      DueSound(steps[1..], oldVersion, step);
    }
  }

  /** Every step of the table whose guard holds is due. */
  lemma {:induction false} DueComplete(steps: seq<Step>, oldVersion: int, i: nat)
    requires i < |steps| && oldVersion < steps[i].threshold
    ensures steps[i] in Due(steps, oldVersion)
  {
    if i > 0 {
      DueComplete(steps[1..], oldVersion, i - 1);
    }
  }

  /** Every step's actions are part of the flattened list. */
  lemma {:induction false} FlattenHasStep(steps: seq<Step>, step: Step)
    requires step in steps
    ensures |step.actions| <= |Flatten(steps)|
  {
    if steps[0] != step {
      assert step in steps[1..];
      FlattenHasStep(steps[1..], step);
    }
  }

  /** What `onUpgrade` logs for a database at `oldVersion`: something exactly below the current version. */
  function UpgradeActions(oldVersion: int): (actions: seq<SchemaAction>)
    ensures actions == [] <==> oldVersion >= CurrentVersion
  {
    var due := Due(Steps, oldVersion);
    if oldVersion < CurrentVersion then
      DueComplete(Steps, oldVersion, 5);
      FlattenHasStep(due, Steps[5]);
      Flatten(due)
    else
      assert due == [] by {
        if due != [] {
          DueSound(Steps, oldVersion, due[0]);
        }
      }
      Flatten(due)
  }

  /** The database an upgrade runs on, reduced to the log of schema actions issued on it. */
  class Database {
    var log: seq<SchemaAction>

    constructor ()
      ensures log == []
    {
      log := [];
    }

    /** `execSQL`: run one statement. */
    method ExecSql(sql: string)
      modifies this
      ensures log == old(log) + [Sql(sql)]
    {
      log := log + [Sql(sql)];
    }
  }

  /** `dropAllTables(db, ifExists)`. */
  method DropAllTables(db: Database, ifExists: bool)
    modifies db
    ensures db.log == old(db.log) + [DropAll(ifExists)]
  {
    db.log := db.log + [DropAll(ifExists)];
  }

  /** `onCreate(db)`: create the tables of the current schema. */
  method OnCreate(db: Database)
    modifies db
    ensures db.log == old(db.log) + [CreateAll]
  {
    db.log := db.log + [CreateAll];
  }

  /** `DbMigrationHelper.migrate(db, daos...)`. */
  method Migrate(db: Database, daos: seq<Dao>)
    modifies db
    ensures db.log == old(db.log) + [MigrateDaos(daos)]
  {
    db.log := db.log + [MigrateDaos(daos)];
  }

  class DevOpenHelper {

    /**
     * `onUpgrade`: each step runs when `oldVersion` is below its threshold,
     * independently of the others; `newVersion` is only reported.
     */
    method OnUpgrade(db: Database, oldVersion: int, newVersion: int)
      modifies db
      ensures db.log == old(db.log) + UpgradeActions(oldVersion)
    {
      ghost var start := db.log;
      if oldVersion < 2000000 {
        DropAllTables(db, true);
        OnCreate(db);
      }
      ghost var due := StepActions(oldVersion, 0);
      assert db.log == start + due;
      if oldVersion < 2000001 {
        db.ExecSql(AddAllophoneUsageCount);
      }
      due := due + StepActions(oldVersion, 1);
      assert db.log == start + due;
      if oldVersion < 2000003 {
        Migrate(db, [AllophoneDao, JoinNumbersWithWordsDao]);
      }
      due := due + StepActions(oldVersion, 2);
      assert db.log == start + due;
      if oldVersion < 2000004 {
        Migrate(db, [StoryBookDao]);
      }
      due := due + StepActions(oldVersion, 3);
      assert db.log == start + due;
      if oldVersion < 2000005 {
        Migrate(db, [WordDao]);
      }
      due := due + StepActions(oldVersion, 4);
      assert db.log == start + due;
      if oldVersion < 2000007 {
        Migrate(db, [AllophoneDao, LetterDao]);
      }
      due := due + StepActions(oldVersion, 5);
      assert db.log == start + due;
      UpgradeActionsBySteps(oldVersion);
    }
  }

  // ---------------------------------------------------------------------------
  // Building the schedule one step at a time

  lemma {:induction false} FlattenAppend(a: seq<Step>, b: seq<Step>)
    ensures Flatten(a + b) == Flatten(a) + Flatten(b)
  {
    if a == [] {
      assert a + b == b;
    } else {
      assert (a + b)[0] == a[0];
      assert (a + b)[1..] == a[1..] + b;
      FlattenAppend(a[1..], b);
    }
  }

  lemma {:induction false} DueAppend(steps: seq<Step>, last: Step, oldVersion: int)
    ensures Due(steps + [last], oldVersion) == Due(steps, oldVersion) + (if oldVersion < last.threshold then [last] else [])
  {
    if steps != [] {
      assert (steps + [last])[1..] == steps[1..] + [last];
      DueAppend(steps[1..], last, oldVersion);
    }
  }

  /** The actions of step k, when it is due for `oldVersion`. */
  function StepActions(oldVersion: int, k: nat): seq<SchemaAction>
    requires k < |Steps|
  {
    if oldVersion < Steps[k].threshold then Steps[k].actions else []
  }

  /** The schedule is the due steps' actions, step after step. */
  lemma UpgradeActionsBySteps(oldVersion: int)
    ensures UpgradeActions(oldVersion)
         == StepActions(oldVersion, 0) + StepActions(oldVersion, 1) + StepActions(oldVersion, 2)
          + StepActions(oldVersion, 3) + StepActions(oldVersion, 4) + StepActions(oldVersion, 5)
  {
    var v := oldVersion;
    assert Steps[..0] == [];
    StepsPrefix(0, v);
    var due := StepActions(v, 0);
    assert Flatten(Due(Steps[..1], v)) == due;
    StepsPrefix(1, v);
    due := due + StepActions(v, 1);
    StepsPrefix(2, v);
    due := due + StepActions(v, 2);
    StepsPrefix(3, v);
    due := due + StepActions(v, 3);
    StepsPrefix(4, v);
    due := due + StepActions(v, 4);
    StepsPrefix(5, v);
    due := due + StepActions(v, 5);
    assert Steps[..6] == Steps;
  }

  /** The actions due among the first k + 1 steps: those of the first k, then step k's when due. */
  lemma StepsPrefix(k: nat, oldVersion: int)
    requires k < |Steps|
    ensures Flatten(Due(Steps[..k + 1], oldVersion)) == Flatten(Due(Steps[..k], oldVersion)) + StepActions(oldVersion, k)
  {
    assert Steps[..k + 1] == Steps[..k] + [Steps[k]];
    DueAppend(Steps[..k], Steps[k], oldVersion);
    FlattenAppend(Due(Steps[..k], oldVersion), if oldVersion < Steps[k].threshold then [Steps[k]] else []);
    assert Flatten([Steps[k]]) == Steps[k].actions;
  }

  // ---------------------------------------------------------------------------
  // Properties of the schedule

  /** A database at the current version, or newer, has no step due, so it is left alone. */
  lemma NothingFromCurrentVersion(oldVersion: int)
    requires oldVersion >= CurrentVersion
    ensures Due(Steps, oldVersion) == []
    ensures UpgradeActions(oldVersion) == []
  {
    var due := Due(Steps, oldVersion);
    if due != [] {
      DueSound(Steps, oldVersion, due[0]);
    }
    UpgradeActionsBySteps(oldVersion);
  }

  /**
   * A database older than 2000000 is dropped and recreated first, and then
   * every later step runs as well, in table order.
   */
  lemma EverythingBelowFirstThreshold(oldVersion: int)
    requires oldVersion < 2000000
    ensures UpgradeActions(oldVersion) == Flatten(Steps)
    ensures UpgradeActions(oldVersion) == [
      DropAll(true), CreateAll,
      Sql(AddAllophoneUsageCount),
      MigrateDaos([AllophoneDao, JoinNumbersWithWordsDao]),
      MigrateDaos([StoryBookDao]),
      MigrateDaos([WordDao]),
      MigrateDaos([AllophoneDao, LetterDao])]
  {
    StepsAscending();
    AllDue(Steps, oldVersion);
    UpgradeActionsBySteps(oldVersion);
  }

  /** From 2000005 or 2000006, only the allophone and letter tables are migrated. */
  lemma OnlyAllophoneAndLetterFrom2000005(oldVersion: int)
    requires 2000005 <= oldVersion < 2000007
    ensures UpgradeActions(oldVersion) == [MigrateDaos([AllophoneDao, LetterDao])]
  {
    UpgradeActionsBySteps(oldVersion);
  }

  lemma StepsAscending()
    ensures Ascending(Steps)
  {
  }

  /** Past its first due step, every step of an ascending table is due. */
  lemma {:induction false} AllDue(steps: seq<Step>, oldVersion: int)
    requires Ascending(steps)
    requires steps != [] ==> oldVersion < steps[0].threshold
    ensures Due(steps, oldVersion) == steps
  {
    if steps != [] {
      if |steps| > 1 {
        assert steps[1..][0] == steps[1];
      }
      AllDue(steps[1..], oldVersion);
    }
  }

  /** The due steps of an ascending table are one of its suffixes. */
  lemma {:induction false} DueIsSuffix(steps: seq<Step>, oldVersion: int)
    requires Ascending(steps)
    ensures |Due(steps, oldVersion)| <= |steps|
    ensures Due(steps, oldVersion) == steps[|steps| - |Due(steps, oldVersion)|..]
  {
    if steps != [] {
      if oldVersion < steps[0].threshold {
        AllDue(steps, oldVersion);
      } else {
        DueIsSuffix(steps[1..], oldVersion);
      }
    }
  }

  /** A higher old version has no more due steps than a lower one. */
  lemma {:induction false} DueShrinks(steps: seq<Step>, lower: int, higher: int)
    requires lower <= higher
    ensures |Due(steps, higher)| <= |Due(steps, lower)|
  {
    if steps != [] {
      DueShrinks(steps[1..], lower, higher);
    }
  }

  /** What `onUpgrade` runs is always the tail of the step table from some step on. */
  lemma UpgradeIsTableSuffix(oldVersion: int)
    ensures |Due(Steps, oldVersion)| <= |Steps|
    ensures UpgradeActions(oldVersion) == Flatten(Steps[|Steps| - |Due(Steps, oldVersion)|..])
  {
    StepsAscending();
    DueIsSuffix(Steps, oldVersion);
  }

  /** In an ascending table, the actions due at a higher version end the actions due at a lower one. */
  lemma DueActionsShrink(steps: seq<Step>, lower: int, higher: int)
    requires Ascending(steps) && lower <= higher
    ensures var a := Flatten(Due(steps, lower)); var b := Flatten(Due(steps, higher));
      |b| <= |a| && a[|a| - |b|..] == b
  {
    DueIsSuffix(steps, lower);
    DueIsSuffix(steps, higher);
    DueShrinks(steps, lower, higher);
    var j := |steps| - |Due(steps, lower)|;
    var k := |steps| - |Due(steps, higher)|;
    assert steps[j..] == steps[j..k] + steps[k..];
    FlattenAppend(steps[j..k], steps[k..]);
  }

  /**
   * Monotonicity: the actions for a higher old version are a suffix of the
   * actions for a lower one.
   */
  lemma UpgradeMonotonic(lower: int, higher: int)
    requires lower <= higher
    ensures |UpgradeActions(higher)| <= |UpgradeActions(lower)|
    ensures UpgradeActions(lower)[|UpgradeActions(lower)| - |UpgradeActions(higher)|..] == UpgradeActions(higher)
  {
    StepsAscending();
    DueActionsShrink(Steps, lower, higher);
  }
}
