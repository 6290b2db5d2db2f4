/**
 Bulk rewrite of tracking-tag prefixes: the plan of packages/shared/src/assets.ts and the
 transaction in packages/api-contract/src/router.ts that applies it row by row.
 `upper` stands for the runtime's `toUpperCase`; nothing is assumed about it.
 */
module TagRetarget {
  import opened Options
  import opened Text

  datatype Row = Row(id: string, tag: string)

  datatype Change = Change(id: string, fromTag: string, toTag: string)

  datatype Reason = TargetExists | DuplicateTarget

  datatype Conflict = Conflict(id: string, fromTag: string, toTag: string, reason: Reason)

  datatype Plan = Plan(updates: seq<Change>, conflicts: seq<Conflict>, skipped: nat, kept: nat,
                       claimed: map<string, string>)

  /** The two prefixes, normalised, and the upper-casing they are compared under. */
  datatype Retarget = Retarget(fromPrefix: string, toPrefix: string, upper: string -> string)

  const DEFAULT_PREFIX: string := "LH"

  predicate IsAlnum(c: char) {
    'A' <= c <= 'Z' || 'a' <= c <= 'z' || '0' <= c <= '9'
  }

  function UpperChar(c: char): char {
    if 'a' <= c <= 'z' then (c as int - 32) as char else c
  }

  predicate IsPrefixText(s: string) {
    1 <= |s| <= 8 && forall i :: 0 <= i < |s| ==> IsAlnum(s[i])
  }

  function NormalizePrefix(value: string): (r: string)
    ensures IsPrefixText(r)
  {
    var t := Trim(value);
    if IsPrefixText(t) then seq(|t|, i requires 0 <= i < |t| => UpperChar(t[i])) else DEFAULT_PREFIX
  }

  /** The part of a tag after `PREFIX-`; None for a tag outside the scheme. */
  function BodyAfterPrefix(tag: string, rt: Retarget): Option<string> {
    var trimmed := Trim(tag);
    var expected := rt.fromPrefix + "-";
    if |trimmed| <= |expected| || rt.upper(trimmed[..|expected|]) != expected then None
    else Some(trimmed[|expected|..])
  }

  function Target(row: Row, rt: Retarget): Option<string> {
    match BodyAfterPrefix(row.tag, rt)
    case None => None
    case Some(body) => Some(rt.toPrefix + "-" + body)
  }

  function Key(tag: string, rt: Retarget): string {
    rt.upper(Trim(tag))
  }

  /** Of one to eight ASCII letters and digits between white space, upper-cased; anything else is the default. */
  lemma NormalizePrefixIs(value: string)
    ensures var t, r := Trim(value), NormalizePrefix(value);
            if 1 <= |t| <= 8 && forall i :: 0 <= i < |t| ==> 48 <= t[i] as int <= 57 || 65 <= t[i] as int <= 90
                                                              || 97 <= t[i] as int <= 122
            then |r| == |t| && forall i :: 0 <= i < |t| ==>
                   r[i] as int == if t[i] as int >= 97 then t[i] as int - 32 else t[i] as int
            else r == "LH"
  {
    hide Trim;
  }

  /** Normalising once more changes nothing, so it does not matter how often it is done on the way. */
  lemma NormalizedStays(value: string)
    ensures NormalizePrefix(NormalizePrefix(value)) == NormalizePrefix(value)
  {
    var r := NormalizePrefix(value);
    assert forall i :: 0 <= i < |r| ==> IsAlnum(r[i]) && !('a' <= r[i] <= 'z') by { NormalizePrefixIs(value); }
    assert Trimmed(r);
    TrimIsTrimmed(r);
    hide Trim;
    NormalizePrefixIs(r);
    assert NormalizePrefix(r) == r;
  }

  /** `toTag` is the new prefix, a dash and what follows the old prefix and dash in the row's trimmed tag. */
  predicate NewTag(row: Row, rt: Retarget, toTag: string) {
    var t, n := Trim(row.tag), |rt.fromPrefix| + 1;
    |t| > n && rt.upper(t[..n]) == rt.fromPrefix + "-" && toTag == rt.toPrefix + "-" + t[n..]
  }

  lemma TargetIs(row: Row, rt: Retarget, toTag: string)
    ensures Target(row, rt) == Some(toTag) <==> NewTag(row, rt, toTag)
  {
    hide Trim;
  }

  /** Which row holds each key; the last of several wins. */
  function Existing(rows: seq<Row>, rt: Retarget): map<string, string> {
    if rows == [] then map[]
    else Existing(rows[..|rows| - 1], rt)[Key(rows[|rows| - 1].tag, rt) := rows[|rows| - 1].id]
  }

  /** The planner's decision on one row, given what was decided before it. */
  function PlanRow(p: Plan, row: Row, existing: map<string, string>, rt: Retarget): Plan {
    var fromTag := Trim(row.tag);
    match Target(row, rt)
    case None => p.(skipped := p.skipped + 1)
    case Some(toTag) =>
      var toUpper := rt.upper(toTag);
      if toUpper == rt.upper(fromTag) then p.(kept := p.kept + 1)
      else if toUpper in existing && existing[toUpper] != "" && existing[toUpper] != row.id then
        p.(conflicts := p.conflicts + [Conflict(row.id, fromTag, toTag, TargetExists)])
      else if toUpper in p.claimed then
        p.(conflicts := p.conflicts + [Conflict(row.id, fromTag, toTag, DuplicateTarget)])
      else
        p.(claimed := p.claimed[toUpper := row.id], updates := p.updates + [Change(row.id, fromTag, toTag)])
  }

  function PlanRows(rows: seq<Row>, existing: map<string, string>, rt: Retarget): Plan {
    if rows == [] then Plan([], [], 0, 0, map[])
    else PlanRow(PlanRows(rows[..|rows| - 1], existing, rt), rows[|rows| - 1], existing, rt)
  }

  function PlanFor(rows: seq<Row>, rt: Retarget): Plan {
    PlanRows(rows, Existing(rows, rt), rt)
  }

  method PlanPrefixRetarget(rows: seq<Row>, fromPrefix: string, toPrefix: string, upper: string -> string)
    returns (plan: Plan)
    ensures plan == PlanFor(rows, Retarget(NormalizePrefix(fromPrefix), NormalizePrefix(toPrefix), upper))
  {
    hide NormalizePrefix, Trim, Key, Target;
    var rt := Retarget(NormalizePrefix(fromPrefix), NormalizePrefix(toPrefix), upper);
    var existingByUpper: map<string, string> := map[];
    for i := 0 to |rows|
      invariant existingByUpper == Existing(rows[..i], rt)
    {
      assert rows[..i + 1][..i] == rows[..i];
      existingByUpper := existingByUpper[Key(rows[i].tag, rt) := rows[i].id];
    }
    assert rows[..|rows|] == rows;

    var updates: seq<Change> := [];
    var conflicts: seq<Conflict> := [];
    var skipped, kept := 0, 0;
    var claimedTargets: map<string, string> := map[];
    for i := 0 to |rows|
      invariant skipped >= 0 && kept >= 0
      invariant Plan(updates, conflicts, skipped, kept, claimedTargets) == PlanRows(rows[..i], existingByUpper, rt)
    {
      assert rows[..i + 1][..i] == rows[..i];
      var row := rows[i];
      var fromTag := Trim(row.tag);
      var target := Target(row, rt);
      if target.None? {
        skipped := skipped + 1;
      } else {
        var toTag := target.value;
        var toUpper := rt.upper(toTag);
        if toUpper == rt.upper(fromTag) {
          kept := kept + 1;
        } else if toUpper in existingByUpper && existingByUpper[toUpper] != "" && existingByUpper[toUpper] != row.id {
          conflicts := conflicts + [Conflict(row.id, fromTag, toTag, TargetExists)];
        } else if toUpper in claimedTargets {
          conflicts := conflicts + [Conflict(row.id, fromTag, toTag, DuplicateTarget)];
        } else {
          claimedTargets := claimedTargets[toUpper := row.id];
          updates := updates + [Change(row.id, fromTag, toTag)];
        }
      }
    }
    plan := Plan(updates, conflicts, skipped, kept, claimedTargets);
  }

  // ----- what the plan amounts to, row by row -----

  datatype Verdict = Skip | Keep | Refuse(reason: Reason) | Move

  ghost predicate DistinctIds(rows: seq<Row>) {
    && (forall i :: 0 <= i < |rows| ==> rows[i].id != "")
    && (forall i, j :: 0 <= i < j < |rows| ==> rows[i].id != rows[j].id)
  }

  /** Another row already shows the tag that row `k` would get. */
  ghost predicate TargetTaken(rows: seq<Row>, k: nat, rt: Retarget)
    requires k < |rows| && Target(rows[k], rt).Some?
  {
    exists j :: 0 <= j < |rows| && j != k && Key(rows[j].tag, rt) == rt.upper(Target(rows[k], rt).value)
  }

  ghost function VerdictOf(rows: seq<Row>, k: nat, rt: Retarget): Verdict
    requires k < |rows|
    decreases k
  {
    match Target(rows[k], rt)
    case None => Skip
    case Some(toTag) =>
      if rt.upper(toTag) == Key(rows[k].tag, rt) then Keep
      else if TargetTaken(rows, k, rt) then Refuse(TargetExists)
      else if exists i :: 0 <= i < k && VerdictOf(rows, i, rt) == Move
                          && rt.upper(Target(rows[i], rt).value) == rt.upper(toTag) then Refuse(DuplicateTarget)
      else Move
  }

  lemma {:induction false} ExistingHolds(rows: seq<Row>, rt: Retarget, key: string)
    requires DistinctIds(rows)
    ensures key in Existing(rows, rt) <==> exists j :: 0 <= j < |rows| && Key(rows[j].tag, rt) == key
    ensures key in Existing(rows, rt) ==>
              exists j :: 0 <= j < |rows| && Key(rows[j].tag, rt) == key && rows[j].id == Existing(rows, rt)[key]
    decreases |rows|
  {
    if rows != [] {
      var init, n := rows[..|rows| - 1], |rows| - 1;
      ExistingHolds(init, rt, key);
      if key in Existing(init, rt) {
        var j :| 0 <= j < |init| && Key(init[j].tag, rt) == key && init[j].id == Existing(init, rt)[key];
        assert rows[j] == init[j];
      }
      if Key(rows[n].tag, rt) == key {
        assert Existing(rows, rt)[key] == rows[n].id;
      }
      if j :| 0 <= j < |rows| && Key(rows[j].tag, rt) == key && j != n {
        assert init[j] == rows[j];
      }
    }
  }

  /** The look-up the planner makes finds another row exactly when one shows the target. */
  lemma {:induction false} LookUpFindsAnother(rows: seq<Row>, k: nat, rt: Retarget)
    requires DistinctIds(rows) && k < |rows| && Target(rows[k], rt).Some?
    requires rt.upper(Target(rows[k], rt).value) != Key(rows[k].tag, rt)
    ensures var e, t := Existing(rows, rt), rt.upper(Target(rows[k], rt).value);
            (t in e && e[t] != "" && e[t] != rows[k].id) <==> TargetTaken(rows, k, rt)
  {
    ExistingHolds(rows, rt, rt.upper(Target(rows[k], rt).value));
  }

  ghost function Moves(rows: seq<Row>, n: nat, rt: Retarget): seq<Change>
    requires n <= |rows|
  {
    if n == 0 then []
    else Moves(rows, n - 1, rt)
         + if VerdictOf(rows, n - 1, rt) == Move
           then [Change(rows[n - 1].id, Trim(rows[n - 1].tag), Target(rows[n - 1], rt).value)] else []
  }

  ghost function Refusals(rows: seq<Row>, n: nat, rt: Retarget): seq<Conflict>
    requires n <= |rows|
  {
    if n == 0 then []
    else Refusals(rows, n - 1, rt)
         + match VerdictOf(rows, n - 1, rt)
           case Refuse(reason) => [Conflict(rows[n - 1].id, Trim(rows[n - 1].tag), Target(rows[n - 1], rt).value,
             reason)]
           case _ => []
  }

  ghost function Count(rows: seq<Row>, n: nat, v: Verdict, rt: Retarget): nat
    requires n <= |rows|
  {
    if n == 0 then 0 else Count(rows, n - 1, v, rt) + if VerdictOf(rows, n - 1, rt) == v then 1 else 0
  }

  ghost predicate Claims(rows: seq<Row>, n: nat, claimed: map<string, string>, rt: Retarget)
    requires n <= |rows|
  {
    forall key :: key in claimed <==>
      exists i :: 0 <= i < n && VerdictOf(rows, i, rt) == Move && rt.upper(Target(rows[i], rt).value) == key
  }

  /** What the planner does to one row is what its verdict says. */
  lemma PlanRowByVerdict(rows: seq<Row>, k: nat, rt: Retarget, p: Plan)
    requires DistinctIds(rows) && k < |rows| && Claims(rows, k, p.claimed, rt)
    ensures PlanRow(p, rows[k], Existing(rows, rt), rt)
            == match VerdictOf(rows, k, rt)
               case Skip => p.(skipped := p.skipped + 1)
               case Keep => p.(kept := p.kept + 1)
               case Refuse(reason) =>
                 p.(conflicts := p.conflicts
                   + [Conflict(rows[k].id, Trim(rows[k].tag), Target(rows[k], rt).value, reason)])
               case Move =>
                 p.(claimed := p.claimed[rt.upper(Target(rows[k], rt).value) := rows[k].id],
                    updates := p.updates + [Change(rows[k].id, Trim(rows[k].tag), Target(rows[k], rt).value)])
  {
    hide BodyAfterPrefix, Existing, TargetTaken, Trim, DistinctIds;
    if Target(rows[k], rt).Some? && rt.upper(Target(rows[k], rt).value) != Key(rows[k].tag, rt) {
      LookUpFindsAnother(rows, k, rt);
    }
  }

  lemma ClaimsNext(rows: seq<Row>, k: nat, claimed: map<string, string>, rt: Retarget)
    requires k < |rows| && Claims(rows, k, claimed, rt)
    ensures VerdictOf(rows, k, rt) != Move ==> Claims(rows, k + 1, claimed, rt)
    ensures VerdictOf(rows, k, rt) == Move ==>
            Claims(rows, k + 1, claimed[rt.upper(Target(rows[k], rt).value) := rows[k].id], rt)
  {
    hide BodyAfterPrefix, TargetTaken, Target;
  }

  /** The plan is what the verdicts on the first `n` rows add up to. */
  ghost predicate Follows(p: Plan, rows: seq<Row>, n: nat, rt: Retarget)
    requires n <= |rows|
  {
    && p.updates == Moves(rows, n, rt) && p.conflicts == Refusals(rows, n, rt)
    && p.skipped == Count(rows, n, Skip, rt) && p.kept == Count(rows, n, Keep, rt)
    && Claims(rows, n, p.claimed, rt)
  }

  lemma FollowsNext(rows: seq<Row>, k: nat, rt: Retarget, p: Plan)
    requires DistinctIds(rows) && k < |rows| && Follows(p, rows, k, rt)
    ensures Follows(PlanRow(p, rows[k], Existing(rows, rt), rt), rows, k + 1, rt)
  {
    PlanRowByVerdict(rows, k, rt, p);
    ClaimsNext(rows, k, p.claimed, rt);
    hide VerdictOf, Target, Existing, Trim, DistinctIds, Claims, PlanRow;
  }

  lemma {:induction false} PlanFollowsVerdicts(rows: seq<Row>, n: nat, rt: Retarget)
    requires DistinctIds(rows) && n <= |rows|
    ensures Follows(PlanRows(rows[..n], Existing(rows, rt), rt), rows, n, rt)
  {
    hide VerdictOf, Target, Existing, Trim, DistinctIds, PlanRow;
    if n > 0 {
      hide Follows;
      assert rows[..n][..n - 1] == rows[..n - 1] && rows[..n][n - 1] == rows[n - 1];
      PlanFollowsVerdicts(rows, n - 1, rt);
      FollowsNext(rows, n - 1, rt, PlanRows(rows[..n - 1], Existing(rows, rt), rt));
    }
  }

  lemma {:induction false} EveryRowCounted(rows: seq<Row>, n: nat, rt: Retarget)
    requires n <= |rows|
    ensures |Moves(rows, n, rt)| + |Refusals(rows, n, rt)| + Count(rows, n, Skip, rt) + Count(rows, n, Keep, rt) == n
  {
    hide VerdictOf, Target;
    if n > 0 {
      EveryRowCounted(rows, n - 1, rt);
    }
  }

  /**
   The plan sorts every row by its verdict: updates and conflicts in row order, the rest
   counted, and nothing counted twice or lost.
   */
  lemma PlanSortsEveryRow(rows: seq<Row>, rt: Retarget)
    requires DistinctIds(rows)
    ensures var p := PlanFor(rows, rt);
            && p.updates == Moves(rows, |rows|, rt) && p.conflicts == Refusals(rows, |rows|, rt)
            && p.skipped == Count(rows, |rows|, Skip, rt) && p.kept == Count(rows, |rows|, Keep, rt)
            && |p.updates| + |p.conflicts| + p.skipped + p.kept == |rows|
  {
    assert rows[..|rows|] == rows;
    PlanFollowsVerdicts(rows, |rows|, rt);
    EveryRowCounted(rows, |rows|, rt);
  }

  /** Another row's trimmed tag reads the same as this text, case apart. */
  ghost predicate HeldByAnother(rows: seq<Row>, k: nat, text: string, rt: Retarget) {
    exists j :: 0 <= j < |rows| && j != k && rt.upper(Trim(rows[j].tag)) == rt.upper(text)
  }

  /** An earlier row that moves gets a tag that reads the same. */
  ghost predicate ClaimedEarlier(rows: seq<Row>, k: nat, text: string, rt: Retarget)
    requires k < |rows|
  {
    exists i, t ::
      0 <= i < k && VerdictOf(rows, i, rt) == Move && NewTag(rows[i], rt, t) && rt.upper(t) == rt.upper(text)
  }

  /**
   The verdict on a row, from the tags alone: skipped when it has no new tag, kept when that reads
   the same as its own, refused when another row shows it or an earlier one gets it, else moved.
   */
  lemma VerdictIs(rows: seq<Row>, k: nat, rt: Retarget)
    requires k < |rows|
    ensures VerdictOf(rows, k, rt) == Skip <==> forall t :: !NewTag(rows[k], rt, t)
    ensures forall t :: NewTag(rows[k], rt, t) ==>
              VerdictOf(rows, k, rt)
              == if rt.upper(t) == rt.upper(Trim(rows[k].tag)) then Keep
                 else if HeldByAnother(rows, k, t, rt) then Refuse(TargetExists)
                 else if ClaimedEarlier(rows, k, t, rt) then Refuse(DuplicateTarget)
                 else Move
  {
    hide NewTag, Trim, Target, HeldByAnother, ClaimedEarlier;
    forall t ensures Target(rows[k], rt) == Some(t) <==> NewTag(rows[k], rt, t) {
      TargetIs(rows[k], rt, t);
    }
    if Target(rows[k], rt).Some? {
      var t := Target(rows[k], rt).value;
      assert NewTag(rows[k], rt, t);
      TakenIff(rows, k, rt);
      ClaimedIff(rows, k, t, rt);
    }
  }

  lemma TakenIff(rows: seq<Row>, k: nat, rt: Retarget)
    requires k < |rows| && Target(rows[k], rt).Some?
    ensures TargetTaken(rows, k, rt) <==> HeldByAnother(rows, k, Target(rows[k], rt).value, rt)
  {
    hide Trim, Target;
    var t := Target(rows[k], rt).value;
    if j :| 0 <= j < |rows| && j != k && rt.upper(Trim(rows[j].tag)) == rt.upper(t) {
      assert Key(rows[j].tag, rt) == rt.upper(t);
    }
  }

  lemma ClaimedIff(rows: seq<Row>, k: nat, text: string, rt: Retarget)
    requires k < |rows|
    ensures ClaimedEarlier(rows, k, text, rt)
            <==> exists i :: 0 <= i < k && VerdictOf(rows, i, rt) == Move
                             && rt.upper(Target(rows[i], rt).value) == rt.upper(text)
  {
    hide NewTag, Target;
    forall i | 0 <= i < k && VerdictOf(rows, i, rt) == Move ensures HasNewTag(rows, i, rt) {
      NewTagGiven(rows, i, rt);
    }
    if i :| 0 <= i < k && VerdictOf(rows, i, rt) == Move && rt.upper(Target(rows[i], rt).value) == rt.upper(text) {
      assert HasNewTag(rows, i, rt);
    }
    if i, t :| 0 <= i < k && VerdictOf(rows, i, rt) == Move && NewTag(rows[i], rt, t) && rt.upper(t) == rt.upper(text) {
      TargetIs(rows[i], rt, t);
      assert rt.upper(Target(rows[i], rt).value) == rt.upper(text);
    }
  }

  ghost predicate HasNewTag(rows: seq<Row>, k: nat, rt: Retarget)
    requires k < |rows|
  {
    Target(rows[k], rt).Some? && NewTag(rows[k], rt, Target(rows[k], rt).value)
  }

  lemma NewTagGiven(rows: seq<Row>, k: nat, rt: Retarget)
    requires k < |rows| && (VerdictOf(rows, k, rt) == Move || VerdictOf(rows, k, rt).Refuse?)
    ensures HasNewTag(rows, k, rt)
  {
    hide NewTag, TargetTaken, Key;
    if Target(rows[k], rt).Some? {
      TargetIs(rows[k], rt, Target(rows[k], rt).value);
    }
    hide Target;
  }

  lemma {:induction false} PlansGrow(rows: seq<Row>, k: nat, n: nat, rt: Retarget)
    requires k <= n <= |rows|
    ensures Moves(rows, k, rt) <= Moves(rows, n, rt) && Refusals(rows, k, rt) <= Refusals(rows, n, rt)
    decreases n
  {
    hide VerdictOf, Target, Trim;
    if k < n {
      PlansGrow(rows, k, n - 1, rt);
    }
  }

  lemma OneMove(rows: seq<Row>, k: nat, rt: Retarget)
    requires k < |rows| && VerdictOf(rows, k, rt) == Move && Target(rows[k], rt).Some?
    ensures Moves(rows, k + 1, rt)
            == Moves(rows, k, rt) + [Change(rows[k].id, Trim(rows[k].tag), Target(rows[k], rt).value)]
  {
    hide VerdictOf, Target, Trim;
  }

  lemma OneRefusal(rows: seq<Row>, k: nat, rt: Retarget)
    requires k < |rows| && VerdictOf(rows, k, rt).Refuse? && Target(rows[k], rt).Some?
    ensures Refusals(rows, k + 1, rt)
            == Refusals(rows, k, rt)
               + [Conflict(rows[k].id, Trim(rows[k].tag), Target(rows[k], rt).value, VerdictOf(rows, k, rt).reason)]
  {
    hide VerdictOf, Target, Trim;
  }

  /** The changes of a plan, in row order: each moved row with its trimmed tag and its new one. */
  lemma MovesAre(rows: seq<Row>, rt: Retarget, k: nat)
    requires k < |rows| && VerdictOf(rows, k, rt) == Move
    ensures var u, all := |Moves(rows, k, rt)|, Moves(rows, |rows|, rt);
            && u < |all| && all[u].id == rows[k].id && all[u].fromTag == Trim(rows[k].tag)
            && NewTag(rows[k], rt, all[u].toTag)
  {
    NewTagGiven(rows, k, rt);
    PlansGrow(rows, k + 1, |rows|, rt);
    hide VerdictOf, Target, NewTag, Trim, Moves, Refusals;
    OneMove(rows, k, rt);
  }

  /** Likewise the conflicts, with the reason. */
  lemma RefusalsAre(rows: seq<Row>, rt: Retarget, k: nat)
    requires k < |rows| && VerdictOf(rows, k, rt).Refuse?
    ensures var u, all := |Refusals(rows, k, rt)|, Refusals(rows, |rows|, rt);
            && u < |all| && all[u].id == rows[k].id && all[u].fromTag == Trim(rows[k].tag)
            && all[u].reason == VerdictOf(rows, k, rt).reason && NewTag(rows[k], rt, all[u].toTag)
  {
    NewTagGiven(rows, k, rt);
    PlansGrow(rows, k + 1, |rows|, rt);
    hide VerdictOf, Target, NewTag, Trim, Moves, Refusals;
    OneRefusal(rows, k, rt);
  }

  // ----- applying the updates one at a time -----

  /** Each update belongs to a row told to move; `origin` names it. */
  lemma {:induction false} MoveOrigin(rows: seq<Row>, n: nat, rt: Retarget, u: nat) returns (origin: nat)
    requires n <= |rows| && u < |Moves(rows, n, rt)|
    ensures origin < n && VerdictOf(rows, origin, rt) == Move
    ensures Moves(rows, n, rt)[u] == Change(rows[origin].id, Trim(rows[origin].tag), Target(rows[origin], rt).value)
  {
    hide VerdictOf, Target;
    if u < |Moves(rows, n - 1, rt)| {
      origin := MoveOrigin(rows, n - 1, rt, u);
    } else {
      origin := n - 1;
    }
  }

  type Tags = map<string, string>

  function TableOf(rows: seq<Row>): Tags {
    if rows == [] then map[] else TableOf(rows[..|rows| - 1])[rows[|rows| - 1].id := rows[|rows| - 1].tag]
  }

  lemma {:induction false} TableHolds(rows: seq<Row>, k: nat)
    requires DistinctIds(rows) && k < |rows|
    ensures rows[k].id in TableOf(rows) && TableOf(rows)[rows[k].id] == rows[k].tag
    decreases |rows|
  {
    if k < |rows| - 1 {
      TableHolds(rows[..|rows| - 1], k);
    }
  }

  lemma {:induction false} TableOnly(rows: seq<Row>, id: string) returns (k: nat)
    requires DistinctIds(rows) && id in TableOf(rows)
    ensures k < |rows| && rows[k].id == id && rows[k].tag == TableOf(rows)[id]
    decreases |rows|
  {
    if id == rows[|rows| - 1].id {
      k := |rows| - 1;
    } else {
      k := TableOnly(rows[..|rows| - 1], id);
    }
  }

  function Applied(tags: Tags, updates: seq<Change>): Tags {
    if updates == [] then tags
    else
      var last := updates[|updates| - 1];
      var before := Applied(tags, updates[..|updates| - 1]);
      if last.id in before then before[last.id := last.toTag] else before
  }

  /** The organization's unique index on tags. */
  ghost predicate UniqueTags(tags: Tags) {
    forall a, b :: a in tags && b in tags && a != b ==> tags[a] != tags[b]
  }

  ghost predicate UniqueKeys(tags: Tags, rt: Retarget) {
    forall a, b :: a in tags && b in tags && a != b ==> Key(tags[a], rt) != Key(tags[b], rt)
  }

  /** A new tag carries no white space at its ends, so its key is its own upper-casing. */
  lemma TargetIsTrimmed(row: Row, rt: Retarget)
    requires IsPrefixText(rt.toPrefix) && Target(row, rt).Some?
    ensures Trim(Target(row, rt).value) == Target(row, rt).value
  {
    TrimIsTrimmed(row.tag);
    var body := BodyAfterPrefix(row.tag, rt).value;
    var toTag := Target(row, rt).value;
    assert toTag[|toTag| - 1] == body[|body| - 1] == Trim(row.tag)[|Trim(row.tag)| - 1];
    assert toTag[0] == rt.toPrefix[0];
    TrimIsTrimmed(toTag);
  }

  /** After a prefix of the updates a row shows its own old tag or its target. */
  ghost predicate OldOrMoved(rows: seq<Row>, id: string, tag: string, rt: Retarget) {
    exists k :: 0 <= k < |rows| && rows[k].id == id && OldOrMovedAt(rows, k, tag, rt)
  }

  ghost predicate OldOrMovedAt(rows: seq<Row>, k: nat, tag: string, rt: Retarget)
    requires k < |rows|
  {
    tag == rows[k].tag || (VerdictOf(rows, k, rt) == Move && tag == Target(rows[k], rt).value)
  }

  lemma {:induction false} AppliedShape(rows: seq<Row>, rt: Retarget, n: nat, id: string)
    requires DistinctIds(rows) && n <= |Moves(rows, |rows|, rt)|
    requires id in Applied(TableOf(rows), Moves(rows, |rows|, rt)[..n])
    ensures id in TableOf(rows)
    ensures OldOrMoved(rows, id, Applied(TableOf(rows), Moves(rows, |rows|, rt)[..n])[id], rt)
  {
    var moves := Moves(rows, |rows|, rt);
    if n == 0 {
      var k := TableOnly(rows, id);
      assert OldOrMovedAt(rows, k, TableOf(rows)[id], rt);
    } else {
      assert moves[..n][..n - 1] == moves[..n - 1];
      var before := Applied(TableOf(rows), moves[..n - 1]);
      AppliedShape(rows, rt, n - 1, id);
      if id == moves[n - 1].id {
        var k := MoveOrigin(rows, |rows|, rt, n - 1);
        assert OldOrMovedAt(rows, k, moves[n - 1].toTag, rt);
      } else {
        var k :| 0 <= k < |rows| && rows[k].id == id && OldOrMovedAt(rows, k, before[id], rt);
        assert OldOrMovedAt(rows, k, before[id], rt);
      }
    }
  }

  /** Old or new, two different rows never meet on a tag, nor on a key if keys were distinct. */
  lemma NeverMeet(rows: seq<Row>, rt: Retarget, a: nat, b: nat, tagA: string, tagB: string)
    requires IsPrefixText(rt.toPrefix) && DistinctIds(rows)
    requires a < |rows| && b < |rows| && a != b
    requires OldOrMovedAt(rows, a, tagA, rt) && OldOrMovedAt(rows, b, tagB, rt)
    ensures rows[a].tag != rows[b].tag ==> tagA != tagB
    ensures Key(rows[a].tag, rt) != Key(rows[b].tag, rt) ==> Key(tagA, rt) != Key(tagB, rt)
  {
    if tagA != rows[a].tag {
      TargetIsTrimmed(rows[a], rt);
      assert !TargetTaken(rows, a, rt);
    }
    if tagB != rows[b].tag {
      TargetIsTrimmed(rows[b], rt);
      assert !TargetTaken(rows, b, rt);
    }
    if tagA != rows[a].tag && tagB != rows[b].tag && a < b {
      assert VerdictOf(rows, a, rt) == Move;
    }
  }

  /**
   At every intermediate step of the transaction the tags are still pairwise distinct; so are
   the upper-cased tags when they were to begin with.
   */
  lemma EveryPrefixKeepsTagsUnique(rows: seq<Row>, rt: Retarget, n: nat)
    requires IsPrefixText(rt.toPrefix) && DistinctIds(rows) && UniqueTags(TableOf(rows))
    requires n <= |PlanFor(rows, rt).updates|
    ensures UniqueTags(Applied(TableOf(rows), PlanFor(rows, rt).updates[..n]))
    ensures UniqueKeys(TableOf(rows), rt) ==> UniqueKeys(Applied(TableOf(rows), PlanFor(rows, rt).updates[..n]), rt)
  {
    PlanSortsEveryRow(rows, rt);
    var tags := Applied(TableOf(rows), Moves(rows, |rows|, rt)[..n]);
    forall x, y | x in tags && y in tags && x != y
      ensures tags[x] != tags[y]
      ensures UniqueKeys(TableOf(rows), rt) ==> Key(tags[x], rt) != Key(tags[y], rt)
    {
      AppliedShape(rows, rt, n, x);
      AppliedShape(rows, rt, n, y);
      var a :| 0 <= a < |rows| && rows[a].id == x && OldOrMovedAt(rows, a, tags[x], rt);
      var b :| 0 <= b < |rows| && rows[b].id == y && OldOrMovedAt(rows, b, tags[y], rt);
      TableHolds(rows, a);
      TableHolds(rows, b);
      hide Key, VerdictOf, OldOrMovedAt;
      NeverMeet(rows, rt, a, b, tags[x], tags[y]);
    }
  }

  /** Applied in full, the plan moves the rows told to move to their targets and leaves every other tag alone. */
  lemma {:induction false} FinalTag(rows: seq<Row>, rt: Retarget, n: nat, k: nat)
    requires DistinctIds(rows) && n <= |rows| && k < |rows|
    ensures var tags := Applied(TableOf(rows), Moves(rows, n, rt));
            && rows[k].id in tags && tags.Keys == TableOf(rows).Keys
            && tags[rows[k].id] == if k < n && VerdictOf(rows, k, rt) == Move then Target(rows[k], rt).value
               else rows[k].tag
  {
    hide VerdictOf, Target;
    TableHolds(rows, k);
    if n > 0 {
      FinalTag(rows, rt, n - 1, k);
      FinalTag(rows, rt, n - 1, n - 1);
      if VerdictOf(rows, n - 1, rt) == Move {
        var moves := Moves(rows, n, rt);
        assert moves[..|moves| - 1] == Moves(rows, n - 1, rt);
      } else {
        assert Moves(rows, n, rt) == Moves(rows, n - 1, rt);
      }
    }
  }

  /** The assets of one organization. */
  class AssetTable {
    var tags: Tags

    constructor (tags: Tags)
      ensures this.tags == tags
    {
      this.tags := tags;
    }

    /**
     The transaction: a row update that another row's tag collides with is refused by the unique
     index, and everything is rolled back.
     */
    method ApplyUpdates(updates: seq<Change>) returns (ok: bool)
      requires UniqueTags(tags)
      modifies this
      ensures ok <==> forall n :: 0 <= n <= |updates| ==> UniqueTags(Applied(old(tags), updates[..n]))
      ensures tags == if ok then Applied(old(tags), updates) else old(tags)
    {
      var saved := tags;
      for i := 0 to |updates|
        invariant tags == Applied(saved, updates[..i])
        invariant forall n :: 0 <= n <= i ==> UniqueTags(Applied(saved, updates[..n]))
      {
        assert updates[..i + 1][..i] == updates[..i];
        var change := updates[i];
        if change.id in tags {
          var taken := exists other :: other in tags && other != change.id && tags[other] == change.toTag;
          ghost var before := tags;
          tags := tags[change.id := change.toTag];
          if taken {
            ghost var other :| other in before && other != change.id && before[other] == change.toTag;
            assert tags[other] == tags[change.id];
            assert !UniqueTags(Applied(saved, updates[..i + 1]));
            tags := saved;
            return false;
          }
        }
      }
      assert updates[..|updates|] == updates;
      ok := true;
    }

    /** Plan from the stored rows, then apply: the unique index never objects. */
    method RetargetTags(rows: seq<Row>, fromPrefix: string, toPrefix: string, upper: string -> string)
      returns (plan: Plan, ok: bool)
      requires tags == TableOf(rows) && UniqueTags(tags) && DistinctIds(rows)
      modifies this
      ensures plan == PlanFor(rows, Retarget(NormalizePrefix(fromPrefix), NormalizePrefix(toPrefix), upper))
      ensures ok && tags == Applied(old(tags), plan.updates) && UniqueTags(tags)
    {
      plan := PlanPrefixRetarget(rows, fromPrefix, toPrefix, upper);
      if plan.updates == [] {
        return plan, true;
      }
      forall n | 0 <= n <= |plan.updates| ensures UniqueTags(Applied(tags, plan.updates[..n])) {
        EveryPrefixKeepsTagsUnique(
          rows, Retarget(NormalizePrefix(fromPrefix), NormalizePrefix(toPrefix), upper), n);
      }
      assert plan.updates[..|plan.updates|] == plan.updates;
      ok := ApplyUpdates(plan.updates);
    }
  }
}
