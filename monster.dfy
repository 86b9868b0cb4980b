/**
 * The value side of the monster-progression store: the monster record, its
 * traits and evolution stages, the fixed tables (evolution thresholds, stage
 * order, XP per action level) and the pure rules the store actions apply
 * (clamping a trait, the streak rule, appending to a duplicate-free list).
 */
module Monster {

  datatype Option<T> = None | Some(value: T)

  /** The fixed enumeration of elements; set once when the monster is created. */
  datatype Element = Fire | Water | Wind | Earth | Light | Dark

  /** The six evolution stages. Their order is given by EvolutionOrder. */
  datatype Stage = Wisp | Ember | Ignite | Blaze | Inferno | Phoenix

  /** The names of the five Big Five traits, the keys of a BigFive record. */
  datatype Trait = Openness | Conscientiousness | Extraversion | Agreeableness | EmotionalStability

  datatype BigFive = BigFive(
    openness: int,
    conscientiousness: int,
    extraversion: int,
    agreeableness: int,
    emotionalStability: int)

  datatype MonsterStatus = MonsterStatus(
    id: string,
    userId: string,
    bigFive: BigFive,
    element: Element,
    currentForm: Stage,
    totalXp: int,
    unlockedSkills: seq<string>,
    darksideWarnings: seq<string>)

  /** The action levels 1 to 5 that a logged action can have. */
  type ActionLevel = l: int | 1 <= l <= 5 witness 1

  /** One entry of a partial trait-change record: the trait and its delta, None when undefined. */
  datatype Change = Change(key: Trait, value: Option<int>)

  /** The single local user that owns every monster in this build. */
  const LocalUser: string := "local-user"

  /** The trait value every fresh monster starts with. */
  const InitialTrait: int := 50

  function Min(a: int, b: int): int { if a <= b then a else b }

  function Max(a: int, b: int): int { if a >= b then a else b }

  // ---------------------------------------------------------------------------
  // Fixed tables
  // ---------------------------------------------------------------------------

  const EvolutionOrder: seq<Stage> := [Wisp, Ember, Ignite, Blaze, Inferno, Phoenix]

  /** The total XP at which a stage is reached. */
  function Threshold(s: Stage): nat {
    match s
    case Wisp => 0
    case Ember => 100
    case Ignite => 500
    case Blaze => 1500
    case Inferno => 5000
    case Phoenix => 15000
  }

  /** The XP granted by logging an action of the given level. */
  function XpByLevel(level: ActionLevel): (r: nat)
    ensures r > 0
  {
    match level
    case 1 => 5
    case 2 => 15
    case 3 => 30
    case 4 => 50
    case 5 => 100
  }

  /** A higher action level never grants less XP. */
  lemma XpGrowsWithLevel(a: ActionLevel, b: ActionLevel)
    requires a < b
    ensures XpByLevel(a) < XpByLevel(b)
  {
  }

  /** The thresholds rise strictly along the evolution order. */
  lemma ThresholdsRise(i: nat, j: nat)
    requires i < j < |EvolutionOrder|
    ensures Threshold(EvolutionOrder[i]) < Threshold(EvolutionOrder[j])
  {
  }

  // ---------------------------------------------------------------------------
  // Evolution order
  // ---------------------------------------------------------------------------

  /** The position of s in xs, or -1 when it does not occur (Array.prototype.indexOf). */
  function IndexOf(xs: seq<Stage>, s: Stage): (i: int)
    ensures -1 <= i < |xs|
    ensures 0 <= i ==> xs[i] == s && s !in xs[..i]
    ensures i == -1 <==> s !in xs
  {
    if |xs| == 0 then -1
    else if xs[0] == s then 0
    else
      var k := IndexOf(xs[1..], s);
      assert xs[1..] == xs[1..][..|xs| - 1];
      if k == -1 then -1
      else
        assert xs[..k + 1] == [xs[0]] + xs[1..][..k];
        k + 1
  }

  /** The position of a stage in EvolutionOrder. */
  function StageIndex(s: Stage): (i: nat)
    ensures i < |EvolutionOrder| && EvolutionOrder[i] == s
  {
    match s
    case Wisp => 0
    case Ember => 1
    case Ignite => 2
    case Blaze => 3
    case Inferno => 4
    case Phoenix => 5
  }

  /** indexOf on the order table finds every stage at its position. */
  lemma IndexOfOrder(s: Stage)
    ensures IndexOf(EvolutionOrder, s) == StageIndex(s)
  {
    assert s in EvolutionOrder;
  }

  /** The stage one step after s, written out stage by stage. */
  function Successor(s: Stage): (r: Stage)
    requires s != Phoenix
    ensures StageIndex(r) == StageIndex(s) + 1
    ensures Threshold(r) > Threshold(s)
  {
    match s
    case Wisp => Ember
    case Ember => Ignite
    case Ignite => Blaze
    case Blaze => Inferno
    case Inferno => Phoenix
  }

  /** Phoenix, the last entry of the order, is the only stage without a successor. */
  lemma LastStageIsPhoenix(s: Stage)
    ensures StageIndex(s) == |EvolutionOrder| - 1 <==> s == Phoenix
  {
  }

  /** The form after k evolve actions starting from s. */
  function Advance(s: Stage, k: nat): Stage
    decreases k
  {
    if k == 0 || s == Phoenix then s else Advance(Successor(s), k - 1)
  }

  /** k evolve actions move exactly k stages forward, stopping at the last stage. */
  lemma {:induction false} AdvanceIndex(s: Stage, k: nat)
    ensures StageIndex(Advance(s, k)) == Min(StageIndex(s) + k, |EvolutionOrder| - 1)
    decreases k
  {
    if k != 0 && s != Phoenix {
      AdvanceIndex(Successor(s), k - 1);
    }
  }

  /** A stage earned by XP: the total has reached the current form's threshold. */
  predicate Earned(m: MonsterStatus) {
    m.totalXp >= Threshold(m.currentForm)
  }

  /** The highest stage whose threshold a total of xp has reached. */
  function ReachedStage(xp: nat): (r: Stage)
    ensures Threshold(r) <= xp
    ensures r == Phoenix || xp < Threshold(Successor(r))
  {
    if xp >= Threshold(Phoenix) then Phoenix
    else if xp >= Threshold(Inferno) then Inferno
    else if xp >= Threshold(Blaze) then Blaze
    else if xp >= Threshold(Ignite) then Ignite
    else if xp >= Threshold(Ember) then Ember
    else Wisp
  }

  /**
   * A monster whose form was reached by evolving only when eligible is never
   * past the stage its XP has reached; the form may lag behind it.
   */
  lemma EarnedWithinReach(m: MonsterStatus)
    requires Earned(m) && m.totalXp >= 0
    ensures StageIndex(m.currentForm) <= StageIndex(ReachedStage(m.totalXp))
  {
    var r := ReachedStage(m.totalXp);
    if StageIndex(m.currentForm) > StageIndex(r) {
      var next := Successor(r);
      if StageIndex(next) < StageIndex(m.currentForm) {
        ThresholdsRise(StageIndex(next), StageIndex(m.currentForm));
      }
      assert false;
    }
  }

  /** Evolving a monster that is eligible keeps its form earned. */
  lemma EligibleEvolveEarned(m: MonsterStatus)
    requires m.currentForm != Phoenix && m.totalXp >= Threshold(Successor(m.currentForm))
    ensures Earned(m.(currentForm := Successor(m.currentForm)))
  {
  }

  // ---------------------------------------------------------------------------
  // Traits
  // ---------------------------------------------------------------------------

  /** Math.max(0, Math.min(100, x)): x forced into [0, 100]. */
  function Clamp(x: int): (r: int)
    ensures 0 <= r <= 100
    ensures 0 <= x <= 100 ==> r == x
    ensures x < 0 ==> r == 0
    ensures x > 100 ==> r == 100
  {
    Max(0, Min(100, x))
  }

  function TraitValue(b: BigFive, t: Trait): int {
    match t
    case Openness => b.openness
    case Conscientiousness => b.conscientiousness
    case Extraversion => b.extraversion
    case Agreeableness => b.agreeableness
    case EmotionalStability => b.emotionalStability
  }

  /** b with trait t set to v. */
  function WithTrait(b: BigFive, t: Trait, v: int): (r: BigFive)
    ensures TraitValue(r, t) == v
    ensures forall u :: u != t ==> TraitValue(r, u) == TraitValue(b, u)
  {
    match t
    case Openness => b.(openness := v)
    case Conscientiousness => b.(conscientiousness := v)
    case Extraversion => b.(extraversion := v)
    case Agreeableness => b.(agreeableness := v)
    case EmotionalStability => b.(emotionalStability := v)
  }

  ghost predicate InRange(b: BigFive) {
    forall t :: 0 <= TraitValue(b, t) <= 100
  }

  /** `value || 0`: an undefined delta counts as 0. */
  function DeltaOf(v: Option<int>): int {
    if v.Some? then v.value else 0
  }

  /** One loop step of the trait update: the named trait moves by the delta, clamped. */
  function ApplyChange(b: BigFive, c: Change): BigFive {
    WithTrait(b, c.key, Clamp(TraitValue(b, c.key) + DeltaOf(c.value)))
  }

  /** The trait record after applying the entries of cs in order. */
  function ApplyChanges(b: BigFive, cs: seq<Change>): BigFive {
    if |cs| == 0 then b else ApplyChange(ApplyChanges(b, cs[..|cs| - 1]), cs[|cs| - 1])
  }

  /** The keys of a change record are distinct, as the keys of an object are. */
  ghost predicate DistinctKeys(cs: seq<Change>) {
    forall i, j :: 0 <= i < j < |cs| ==> cs[i].key != cs[j].key
  }

  /** A trait that no entry names keeps its value. */
  lemma {:induction false} ApplyChangesUnnamed(b: BigFive, cs: seq<Change>, t: Trait)
    requires forall i :: 0 <= i < |cs| ==> cs[i].key != t
    ensures TraitValue(ApplyChanges(b, cs), t) == TraitValue(b, t)
  {
    if |cs| > 0 {
      ApplyChangesUnnamed(b, cs[..|cs| - 1], t);
    }
  }

  /** A trait named by an entry ends at its old value plus the delta, clamped to [0, 100]. */
  lemma {:induction false} ApplyChangesNamed(b: BigFive, cs: seq<Change>, j: nat)
    requires DistinctKeys(cs) && j < |cs|
    ensures TraitValue(ApplyChanges(b, cs), cs[j].key) ==
            Clamp(TraitValue(b, cs[j].key) + DeltaOf(cs[j].value))
  {
    var pre := cs[..|cs| - 1];
    if j == |cs| - 1 {
      ApplyChangesUnnamed(b, pre, cs[j].key);
    } else {
      assert pre[j] == cs[j];
      ApplyChangesNamed(b, pre, j);
    }
  }

  /** Every trait named by some entry is in [0, 100] afterwards, whatever its old value. */
  lemma {:induction false} ApplyChangesNamedInRange(b: BigFive, cs: seq<Change>, j: nat)
    requires j < |cs|
    ensures 0 <= TraitValue(ApplyChanges(b, cs), cs[j].key) <= 100
  {
    var pre := cs[..|cs| - 1];
    if j < |cs| - 1 && cs[|cs| - 1].key != cs[j].key {
      assert pre[j] == cs[j];
      ApplyChangesNamedInRange(b, pre, j);
    }
  }

  /** Applying changes to traits that are all in [0, 100] keeps them there. */
  lemma {:induction false} ApplyChangesKeepsRange(b: BigFive, cs: seq<Change>)
    requires InRange(b)
    ensures InRange(ApplyChanges(b, cs))
  {
    if |cs| > 0 {
      ApplyChangesKeepsRange(b, cs[..|cs| - 1]);
    }
  }

  /** A one-entry change record applies that one entry. */
  lemma ApplyOne(b: BigFive, c: Change)
    ensures ApplyChanges(b, [c]) == ApplyChange(b, c)
  {
    assert [c][..0] == [];
  }

  /**
   * The trait growth of logging an action: level 3 and above adds 2 to
   * conscientiousness, level 4 and above then adds 3 to openness, each
   * through a one-entry trait update.
   */
  function ActionGrowth(b: BigFive, level: ActionLevel): (r: BigFive)
    ensures r.conscientiousness == if level >= 3 then Clamp(b.conscientiousness + 2) else b.conscientiousness
    ensures r.openness == if level >= 4 then Clamp(b.openness + 3) else b.openness
    ensures r.extraversion == b.extraversion
    ensures r.agreeableness == b.agreeableness
    ensures r.emotionalStability == b.emotionalStability
  {
    ApplyOne(b, Change(Conscientiousness, Some(2)));
    ApplyOne(ApplyChanges(b, [Change(Conscientiousness, Some(2))]), Change(Openness, Some(3)));
    ApplyOne(b, Change(Openness, Some(3)));
    var grown := if level >= 3 then ApplyChanges(b, [Change(Conscientiousness, Some(2))]) else b;
    if level >= 4 then ApplyChanges(grown, [Change(Openness, Some(3))]) else grown
  }

  // ---------------------------------------------------------------------------
  // Skill and warning lists
  // ---------------------------------------------------------------------------

  ghost predicate NoDuplicates(xs: seq<string>) {
    forall i, j :: 0 <= i < j < |xs| ==> xs[i] != xs[j]
  }

  /** xs with x appended at the end unless it is already present. */
  function AppendUnique(xs: seq<string>, x: string): (r: seq<string>)
    ensures forall y :: y in r <==> y in xs || y == x
    ensures |xs| <= |r| <= |xs| + 1 && r[..|xs|] == xs
    ensures NoDuplicates(xs) ==> NoDuplicates(r)
  {
    if x in xs then xs else xs + [x]
  }

  /** Appending the same entry twice is the same as appending it once. */
  lemma AppendUniqueIdempotent(xs: seq<string>, x: string)
    ensures AppendUnique(AppendUnique(xs, x), x) == AppendUnique(xs, x)
  {
  }

  /** In a duplicate-free list every present entry occurs exactly once. */
  lemma {:induction false} OccursOnce(xs: seq<string>, x: string)
    requires NoDuplicates(xs) && x in xs
    ensures multiset(xs)[x] == 1
  {
    var pre := xs[..|xs| - 1];
    assert xs == pre + [xs[|xs| - 1]];
    if xs[|xs| - 1] == x {
      assert x !in pre;
    } else {
      OccursOnce(pre, x);
    }
  }

  /** After appending to a duplicate-free list the entry occurs exactly once. */
  lemma AppendUniqueOnce(xs: seq<string>, x: string)
    requires NoDuplicates(xs)
    ensures multiset(AppendUnique(xs, x))[x] == 1
  {
    OccursOnce(AppendUnique(xs, x), x);
  }

  // ---------------------------------------------------------------------------
  // The monster record
  // ---------------------------------------------------------------------------

  /** The invariant every store action keeps: traits clamped, lists duplicate-free. */
  ghost predicate Healthy(m: MonsterStatus) {
    InRange(m.bigFive) && NoDuplicates(m.unlockedSkills) && NoDuplicates(m.darksideWarnings)
  }

  /** A freshly created monster. */
  function Fresh(id: string, element: Element): (m: MonsterStatus)
    ensures Healthy(m) && Earned(m)
    ensures forall t :: TraitValue(m.bigFive, t) == InitialTrait
    ensures m.currentForm == EvolutionOrder[0] && m.totalXp == 0
    ensures m.unlockedSkills == [] && m.darksideWarnings == []
    ensures m.element == element && m.id == id && m.userId == LocalUser
  {
    MonsterStatus(id, LocalUser, BigFive(50, 50, 50, 50, 50), element, Wisp, 0, [], [])
  }

  // ---------------------------------------------------------------------------
  // Streak
  // ---------------------------------------------------------------------------

  /** The streak and last action day kept beside the monster; days are day numbers. */
  datatype Session = Session(streak: nat, lastActionDate: Option<int>)

  /** The streak after logging an action on day today. */
  function NextStreak(streak: nat, last: Option<int>, today: int): nat {
    if last == Some(today) then streak
    else if last == Some(today - 1) then streak + 1
    else 1
  }

  /** The session after logging an action on each day of days, from the initial session. */
  function Replay(days: seq<int>): (s: Session)
    ensures |days| == 0 ==> s == Session(0, None)
    ensures |days| > 0 ==> s.lastActionDate == Some(days[|days| - 1]) && s.streak >= 1
  {
    if |days| == 0 then Session(0, None)
    else
      var prev := Replay(days[..|days| - 1]);
      var today := days[|days| - 1];
      Session(NextStreak(prev.streak, prev.lastActionDate, today), Some(today))
  }

  ghost predicate NonDecreasing(days: seq<int>) {
    forall i, j :: 0 <= i <= j < |days| ==> days[i] <= days[j]
  }

  /**
   * After logging on the days of a non-decreasing log, the streak is the
   * length of the run of consecutive calendar days, ending on the last
   * logged day, on each of which an action was logged.
   */
  lemma {:induction false} StreakIsTrailingRun(days: seq<int>)
    requires |days| > 0 && NonDecreasing(days)
    ensures var last := days[|days| - 1];
            var k := Replay(days).streak;
            (forall d :: last - k < d <= last ==> d in days) && last - k !in days
  {
    var n := |days|;
    var pre := days[..n - 1];
    var t := days[n - 1];
    assert days == pre + [t];
    if n > 1 {
      var l := pre[n - 2];
      var k := Replay(pre).streak;
      assert NonDecreasing(pre);
      StreakIsTrailingRun(pre);
      assert Replay(pre).lastActionDate == Some(l);
      forall d | d in pre ensures d <= l {
        var i :| 0 <= i < |pre| && pre[i] == d;
      }
      if t == l {
        assert Replay(days).streak == k;
      } else if t == l + 1 {
        assert Replay(days).streak == k + 1;
      } else {
        assert Replay(days).streak == 1;
        assert t - 1 !in pre;
      }
    }
  }
}
