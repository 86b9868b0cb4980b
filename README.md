# Monster-progression store, modelled in Dafny

Valuemon is a self-reflection app in which a virtual monster grows as the user
logs actions. Its progression lives in one client-side store
(`src/stores/monsterStore.ts`), which holds three things:

- an optional monster record: five Big Five traits, an element, an evolution
  stage, a total XP and two lists, unlocked skills and darkside warnings;
- a streak counter;
- the day of the last logged action.

The store has eight actions. Every action that touches the monster silently
does nothing when there is no monster.

The project has two modules:

- `monster.dfy`, module `Monster`: the record types, the three fixed tables
  (evolution thresholds, evolution order, XP per action level) and the pure
  rules the actions apply. These are the trait clamp, the trait-change loop as
  a function, the streak rule and append-unless-present. The module also holds
  the lemmas about these rules.
- `store.dfy`, module `Store`: class `MonsterStore`. Its fields are `monster`,
  `streak` and `lastActionDate`. Each store action is a method that changes
  these fields in place. The method's contract gives the new state in terms of
  the old state and the rules of `Monster`, and promises that the store
  invariant `Valid()` is kept. `Valid()` says that traits are in [0, 100] and
  that both lists are duplicate-free. `checkEvolution` only reads the store, so
  it is a function.

Modelling choices:

- Calendar dates are integer day numbers. `logAction` takes "today" as a
  parameter, and "yesterday" is today − 1.
- The monster id (a random UUID in the app) is a parameter of `InitMonster`.
  The owner is the constant `"local-user"`. `primaryValueId` is accepted and
  ignored, exactly as in the source.
- The partial trait-change record handed to `updateStats` is a sequence of
  `Change(key, value)` entries in the record's key order. A value of `None`
  stands for an undefined entry, which counts as 0.
- The keys of a JavaScript object are distinct. The lemmas that give a named
  trait's exact new value therefore assume distinct keys. The method itself
  accepts any sequence and applies its entries one after another.

## Model

| member | source | states |
|---|---|---|
| `Monster.ThresholdsRise` | src/stores/monsterStore.ts:22-31 | thresholds strictly increase along the evolution order |
| `Monster.XpByLevel` | src/stores/monsterStore.ts:33-39 | the XP of levels 1..5 is 5, 15, 30, 50, 100; every level grants a positive amount |
| `Monster.XpGrowsWithLevel` | src/stores/monsterStore.ts:33-39 | a higher action level grants strictly more XP |
| `Monster.IndexOf` | src/stores/monsterStore.ts:149 | indexOf: the result is -1 exactly when the stage is absent; otherwise it is the first position holding the stage |
| `Monster.StageIndex` | src/stores/monsterStore.ts:31 | every stage has a position in the six-entry evolution order |
| `Monster.IndexOfOrder` | src/stores/monsterStore.ts:31 | indexOf on the order table finds every stage at its own position (never -1) |
| `Monster.Successor` | src/stores/monsterStore.ts:152 | the next stage of a non-final stage is exactly one position later in the order and has a higher threshold |
| `Monster.LastStageIsPhoenix` | src/stores/monsterStore.ts:150 | a stage is at the last index of the order exactly when it is phoenix |
| `Monster.AdvanceIndex` | src/stores/monsterStore.ts:158-173 | k evolve actions move exactly min(k, stages left) positions forward: no stage is skipped and none lies past phoenix |
| `Monster.ReachedStage` | src/stores/monsterStore.ts:22-29 | the highest stage reached by an XP total: its threshold is met and the next stage's is not |
| `Monster.EarnedWithinReach` | src/app/monster/page.tsx:20-27 | if the form's threshold has been met, the form is never past the stage the XP has reached (it may lag behind) |
| `Monster.EligibleEvolveEarned` | src/app/monster/page.tsx:20-27 | evolving only when checkEvolution holds leaves the new form's threshold met |
| `Monster.Clamp` | src/stores/monsterStore.ts:87 | `Math.max(0, Math.min(100, x))` is in [0, 100]: it is x when x is in range, 0 below, 100 above |
| `Monster.WithTrait` | src/stores/monsterStore.ts:86-87 | writing one trait sets it and leaves the other four unchanged |
| `Monster.ApplyOne` | src/stores/monsterStore.ts:85-88 | a one-entry change record applies exactly that entry |
| `Monster.ApplyChangesUnnamed` | src/stores/monsterStore.ts:84-88 | a trait that no entry names keeps its value |
| `Monster.ApplyChangesNamed` | src/stores/monsterStore.ts:84-88 | with distinct keys, a named trait becomes clamp(old + delta); an undefined delta counts as 0 |
| `Monster.ApplyChangesNamedInRange` | src/stores/monsterStore.ts:84-88 | every named trait ends in [0, 100], whatever its old value |
| `Monster.ApplyChangesKeepsRange` | src/stores/monsterStore.ts:84-88 | traits all in [0, 100] stay in [0, 100] |
| `Monster.ActionGrowth` | src/stores/monsterStore.ts:124-130 | level ≥ 3 gives conscientiousness clamp(+2); level ≥ 4 also gives openness clamp(+3); the other three traits do not change |
| `Monster.AppendUnique` | src/stores/monsterStore.ts:135-140 | the list's members become the old members plus x; the old list stays a prefix; at most one entry is added; a duplicate-free list stays duplicate-free |
| `Monster.AppendUniqueIdempotent` | src/stores/monsterStore.ts:133-143 | unlocking (or warning) twice with the same value equals doing it once |
| `Monster.OccursOnce` | src/stores/monsterStore.ts:133-143 | in a duplicate-free list a present entry occurs exactly once |
| `Monster.AppendUniqueOnce` | src/stores/monsterStore.ts:175-185 | after the append, the value occurs exactly once in a duplicate-free list |
| `Monster.Fresh` | src/stores/monsterStore.ts:49-64 | a new monster has all traits 50, form wisp (first of the order), XP 0, empty lists and the given element; it is healthy and its form is earned |
| `Monster.Replay` | src/stores/monsterStore.ts:98-120 | replaying logged days from the initial state: no days leaves streak 0 and no date; otherwise the last day is recorded and the streak is at least 1 |
| `Monster.StreakIsTrailingRun` | src/stores/monsterStore.ts:102-112 | for days that never go backwards, the streak is the length k of the run of consecutive logged days ending at the last one: days last−k+1..last were all logged, day last−k was not |
| `Store.MonsterStore.constructor` | src/stores/monsterStore.ts:44-46 | the store starts with no monster, streak 0 and no last action date |
| `Store.MonsterStore.InitMonster` | src/stores/monsterStore.ts:48-66 | replaces any monster by a fresh one; streak and date are untouched |
| `Store.MonsterStore.AddXp` | src/stores/monsterStore.ts:68-78 | no-op without a monster; otherwise totalXp grows by amount and nothing else changes |
| `Store.MonsterStore.UpdateStats` | src/stores/monsterStore.ts:80-96 | no-op without a monster; otherwise the loop's result is the entries applied in order (ApplyChanges) and only the traits change |
| `Store.MonsterStore.LogAction` | src/stores/monsterStore.ts:98-131 | streak: unchanged on the same day, +1 the day after, otherwise 1; the date becomes today even without a monster; XP grows by XP_BY_LEVEL[level] and the traits by ActionGrowth |
| `Store.MonsterStore.UnlockSkill` | src/stores/monsterStore.ts:133-143 | no-op without a monster or when the id is present; otherwise the id is appended; the invariant is kept |
| `Store.MonsterStore.CheckEvolution` | src/stores/monsterStore.ts:145-156 | true exactly when a monster exists, is not phoenix and its XP reaches the next stage's threshold |
| `Store.MonsterStore.Evolve` | src/stores/monsterStore.ts:158-173 | no-op without a monster or at phoenix; otherwise the form becomes its successor and nothing else changes; XP is not checked |
| `Store.MonsterStore.AddDarksideWarning` | src/stores/monsterStore.ts:175-185 | no-op without a monster or when the text is present; otherwise the text is appended; the invariant is kept |

## Left out

- Persistence: the zustand `persist` middleware and its local-storage snapshot under `monster-storage`. The store is an in-memory object.
- The clock: `new Date().toDateString()` and `Date.now() - 86400000` are replaced by a day number passed in. Time zones, daylight-saving days (where 24 hours earlier is not the previous calendar day) and the locale format of the date string are not modelled.
- Identity: `crypto.randomUUID()` becomes the `id` parameter of `InitMonster`. Uniqueness of ids is not modelled.
- Numbers are unbounded integers. JavaScript floating point, `NaN` deltas (which `value || 0` also maps to 0) and non-integer amounts are not modelled.
- Store.MonsterStore.AddXp: accepts negative amounts, as the source does. So XP never decreasing is proved only for `LogAction` (every level grants a positive amount), not for `AddXp` in general.
- The analysis route (`src/app/api/analyze/route.ts`) wraps an external text-generation service and a JSON parser that are not part of this model.
- The pages and components only call the store's actions and render its state. The gating of `evolve` behind `checkEvolution` appears only as the two lemmas on earned stages.
