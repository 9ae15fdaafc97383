/**
 * The five project stages: their keys in order, their 1-based order numbers, the
 * status alphabet, the next/previous helpers, and the status vectors that the stage
 * routes produce (a student "pass" and a staff rollback).
 */
module Stages {
  import opened Wrappers
  import opened JsonValue

  /** STAGE_KEYS, in workflow order. */
  const STAGE_KEYS: seq<string> :=
    ["requirements", "high_level_design", "detailed_design", "software_testing", "acceptance"]

  const STAGE_COUNT: nat := 5

  type StageKey = s: string | s in STAGE_KEYS witness "requirements"

  /** The stage status alphabet: locked, open, passed. */
  datatype StageStatus = Locked | Open | Passed

  function StatusName(st: StageStatus): string
  {
    match st
    case Locked => "locked"
    case Open => "open"
    case Passed => "passed"
  }

  /** Reads a status literal; any other string is rejected. */
  function ParseStageStatus(s: string): (r: Option<StageStatus>)
    ensures r.Some? <==> s == "locked" || s == "open" || s == "passed"
    ensures r.Some? ==> StatusName(r.value) == s
  {
    if s == "locked" then Some(Locked)
    else if s == "open" then Some(Open)
    else if s == "passed" then Some(Passed)
    else None
  }

  lemma StatusNameRoundTrip(st: StageStatus)
    ensures ParseStageStatus(StatusName(st)) == Some(st)
  {
  }

  /** isStageKey: a string value that is one of the five keys. */
  predicate IsStageKey(x: Json)
  {
    x.Str? && x.s in STAGE_KEYS
  }

  lemma IsStageKeyExactly(x: Json)
    ensures IsStageKey(x) <==>
      x == Str("requirements") || x == Str("high_level_design") || x == Str("detailed_design")
      || x == Str("software_testing") || x == Str("acceptance")
  {
  }

  /** STAGE_KEYS.indexOf for a key. */
  function IndexOf(k: StageKey): (i: nat)
    ensures i < STAGE_COUNT && STAGE_KEYS[i] == k
  {
    if k == STAGE_KEYS[0] then 0
    else if k == STAGE_KEYS[1] then 1
    else if k == STAGE_KEYS[2] then 2
    else if k == STAGE_KEYS[3] then 3
    else 4
  }

  /** STAGE_ORDER: 1 for requirements up to 5 for acceptance. */
  function StageOrder(k: StageKey): (o: nat)
    ensures 1 <= o <= STAGE_COUNT
  {
    IndexOf(k) + 1
  }

  function KeyOfOrder(o: nat): (k: StageKey)
    requires 1 <= o <= STAGE_COUNT
  {
    STAGE_KEYS[o - 1]
  }

  /** STAGE_ORDER is a bijection from the keys, in listed order, onto 1..5. */
  lemma StageOrderBijection(k: StageKey, o: nat)
    requires 1 <= o <= STAGE_COUNT
    ensures KeyOfOrder(StageOrder(k)) == k
    ensures StageOrder(KeyOfOrder(o)) == o
    ensures forall k2: StageKey :: StageOrder(k2) == StageOrder(k) ==> k2 == k
  {
  }

  /** nextStageKey. */
  function NextStageKey(k: StageKey): (r: Option<StageKey>)
    ensures r.None? <==> k == "acceptance"
    ensures r.Some? ==> StageOrder(r.value) == StageOrder(k) + 1
  {
    var i := IndexOf(k);
    if i < STAGE_COUNT - 1 then Some(KeyOfOrder(i + 2)) else None
  }

  /** prevStageKey. */
  function PrevStageKey(k: StageKey): (r: Option<StageKey>)
    ensures r.None? <==> k == "requirements"
    ensures r.Some? ==> StageOrder(r.value) == StageOrder(k) - 1
  {
    var i := IndexOf(k);
    if i > 0 then Some(KeyOfOrder(i)) else None
  }

  /** nextStageKey and prevStageKey undo each other wherever they are defined. */
  lemma NextPrevInverse(k: StageKey)
    ensures NextStageKey(k).Some? ==> PrevStageKey(NextStageKey(k).value) == Some(k)
    ensures PrevStageKey(k).Some? ==> NextStageKey(PrevStageKey(k).value) == Some(k)
  {
  }

  /* ---------- status vectors ---------- */

  /**
   * Stage `k` (0-based) is the open frontier: every earlier stage is passed, every
   * later one is locked; k == |v| means every stage is passed.
   */
  predicate FrontierAt(v: seq<StageStatus>, k: nat)
  {
    k <= |v|
    && (forall i :: 0 <= i < k ==> v[i] == Passed)
    && (k < |v| ==> v[k] == Open)
    && (forall i :: k < i < |v| ==> v[i] == Locked)
  }

  /**
   * The status a stage of order `order` takes when the project is rolled back to the
   * stage of order `target`.
   */
  function RollbackStatus(order: int, target: int): (st: StageStatus)
    ensures st == Passed <==> order < target
    ensures st == Open <==> order == target
    ensures st == Locked <==> order > target
  {
    if order < target then Passed else if order == target then Open else Locked
  }

  /** The rollback loop applied to a status vector indexed by order - 1. */
  function Rollback(v: seq<StageStatus>, target: int): seq<StageStatus>
  {
    seq(|v|, i requires 0 <= i < |v| => RollbackStatus(i + 1, target))
  }

  /** Rolling back to the stage of order K leaves the K-1 frontier. */
  lemma RollbackIsFrontier(v: seq<StageStatus>, target: nat)
    requires 1 <= target <= |v|
    ensures FrontierAt(Rollback(v, target), target - 1)
  {
  }

  /** Applying the same rollback twice gives the same vector as applying it once. */
  lemma RollbackIdempotent(v: seq<StageStatus>, target: int)
    ensures Rollback(Rollback(v, target), target) == Rollback(v, target)
  {
  }

  /**
   * A passed stage at index i: it becomes passed, and the next stage, when there is one
   * and it is locked, opens.
   */
  function Pass(v: seq<StageStatus>, i: nat): seq<StageStatus>
    requires i < |v|
  {
    var w := v[i := Passed];
    if i + 1 < |w| && w[i + 1] == Locked then w[i + 1 := Open] else w
  }

  /** Passing changes only the stage passed and, when it was locked, the one after it. */
  lemma PassEffect(v: seq<StageStatus>, i: nat)
    requires i < |v|
    ensures |Pass(v, i)| == |v| && Pass(v, i)[i] == Passed
    ensures i + 1 < |v| ==> Pass(v, i)[i + 1] == (if v[i + 1] == Locked then Open else v[i + 1])
    ensures forall j :: 0 <= j < |v| && j != i && j != i + 1 ==> Pass(v, i)[j] == v[j]
  {
  }

  /**
   * A student may only pass the open stage; from passed^k open locked^m that stage is
   * stage k, and passing it gives passed^(k+1) open locked^(m-1), or all passed.
   */
  lemma {:induction false} PassAdvancesFrontier(v: seq<StageStatus>, k: nat, i: nat)
    requires FrontierAt(v, k)
    requires i < |v| && v[i] == Open
    ensures i == k
    ensures FrontierAt(Pass(v, i), k + 1)
  {
    var r := Pass(v, i);
    forall j | 0 <= j < k + 1 ensures r[j] == Passed {
      if j < k {
        assert v[j] == Passed;
      }
    }
    forall j | k + 1 < j < |r| ensures r[j] == Locked {
      assert v[j] == Locked;
    }
  }

  /** A project's stages right after activation: requirements open, the rest locked. */
  function InitialStatuses(): (v: seq<StageStatus>)
    ensures |v| == STAGE_COUNT && FrontierAt(v, 0)
  {
    [Open, Locked, Locked, Locked, Locked]
  }
}
