/**
 * The progression rules of src/utils/storage.ts, stated on values: the default
 * tables, the streak update, the single level-up check, the per-achievement
 * progress update and the recomputation that feeds it, and the effect on the
 * statistics of one task completion and of one credit of focus minutes.
 *
 * The class `Storage.Store` performs the same steps in place; its methods are
 * proved equal to the functions here.
 */
module Gamification {
  import opened Types
  import opened Tasks

  const TaskXp: int := 10      // per completed task
  const UnlockXp: int := 25    // per unlocked achievement
  const InitialThreshold: int := 100

  /** The achievement table every fresh profile starts with. */
  const DefaultAchievements: seq<Achievement> := [
    Achievement(Streak3, "3 Day Streak", "Complete tasks for 3 days in a row", "\U{1F525}", None, 0, 3),
    Achievement(Streak7, "Weekly Warrior", "Complete tasks for 7 days in a row", "\U{1F3C6}", None, 0, 7),
    Achievement(Streak30, "Monthly Master", "Complete tasks for 30 days in a row", "\U{1F451}", None, 0, 30),
    Achievement(Tasks10, "Getting Started", "Complete 10 tasks", "\U{1F680}", None, 0, 10),
    Achievement(Tasks50, "Half Century", "Complete 50 tasks", "\U{1F4AF}", None, 0, 50),
    Achievement(Tasks100, "Century Club", "Complete 100 tasks", "\U{1F3AF}", None, 0, 100),
    Achievement(AllCategory, "Well Rounded", "Complete tasks in all categories", "\U{1F308}", None, 0, 6),
    Achievement(FocusMaster, "Focus Master", "Use the focus timer for 5 hours total", "\U{23F1}\U{FE0F}", None, 0, 300),
    Achievement(SubtaskKing, "Subtask King", "Complete 20 subtasks", "\U{1F4CB}", None, 0, 20)
  ]

  const DefaultStats: UserStats :=
    UserStats(1, 0, InitialThreshold, 0, Streak(0, 0, None), DefaultAchievements, 0)

  const DefaultPreferences: UserPreferences := UserPreferences(System, true, true, 25, 5)

  /** The slot of an achievement type in the default table. */
  function Ord(t: AchievementType): (i: nat)
    ensures i < |DefaultAchievements| && DefaultAchievements[i].id == t
  {
    match t
    case Streak3 => 0
    case Streak7 => 1
    case Streak30 => 2
    case Tasks10 => 3
    case Tasks50 => 4
    case Tasks100 => 5
    case AllCategory => 6
    case FocusMaster => 7
    case SubtaskKing => 8
  }

  /** Every slot of the default table holds a different type. */
  lemma OrdOfTable()
    ensures forall i :: 0 <= i < |DefaultAchievements| ==> Ord(DefaultAchievements[i].id) == i
  {
    forall i | 0 <= i < |DefaultAchievements|
      ensures Ord(DefaultAchievements[i].id) == i
    {
      if i == 0 { } else if i == 1 { } else if i == 2 { } else if i == 3 { }
      else if i == 4 { } else if i == 5 { } else if i == 6 { } else if i == 7 { }
      else { }
    }
  }

  // ---------------------------------------------------------------- invariants

  /** `longest` bounds `current`; both are 0 until the first completion, then `current` is at least 1. */
  predicate StreakInv(s: Streak) {
    && s.current <= s.longest
    && (s.lastCompleted.None? ==> s.current == 0 && s.longest == 0)
    && (s.lastCompleted.Some? ==> s.current >= 1)
  }

  /** Progress never exceeds the target, and reaches it exactly when the achievement is unlocked. */
  predicate AchievementInv(a: Achievement) {
    a.progress <= a.target && (a.unlockedAt.Some? <==> a.progress == a.target)
  }

  /** Two lists with the same ids and targets, slot by slot. */
  predicate SameTable(l: seq<Achievement>, l': seq<Achievement>) {
    |l| == |l'| && forall i :: 0 <= i < |l| ==> l'[i].id == l[i].id && l'[i].target == l[i].target
  }

  predicate AchievementsInv(l: seq<Achievement>) {
    SameTable(DefaultAchievements, l) && forall i :: 0 <= i < |l| ==> AchievementInv(l[i])
  }

  predicate StatsInv(u: UserStats) {
    && u.level >= 1
    && u.experience >= 0
    && u.experienceToNextLevel >= InitialThreshold
    && StreakInv(u.streak)
    && AchievementsInv(u.achievements)
  }

  function Flag(a: Achievement): nat {
    if a.unlockedAt.Some? then 1 else 0
  }

  /** The number of unlocked achievements in a list. */
  function Unlocked(l: seq<Achievement>): (n: nat)
    ensures n <= |l|
    decreases |l|
  {
    if |l| == 0 then 0 else Unlocked(l[..|l| - 1]) + Flag(l[|l| - 1])
  }

  lemma {:induction false} UnlockedUpdate(l: seq<Achievement>, i: int, a: Achievement)
    requires 0 <= i < |l|
    ensures Unlocked(l[i := a]) == Unlocked(l) - Flag(l[i]) + Flag(a)
    decreases |l|
  {
    var n := |l|;
    if i == n - 1 {
      assert l[i := a][..n - 1] == l[..n - 1];
    } else {
      assert l[i := a][..n - 1] == l[..n - 1][i := a];
      UnlockedUpdate(l[..n - 1], i, a);
    }
  }

  // ------------------------------------------------------------------- streak

  function Max(a: int, b: int): int {
    if a < b then b else a
  }

  /** The streak after a completion at `now` (updateStreak). */
  function NextStreak(s: Streak, now: Instant): (r: Streak)
    ensures r.lastCompleted.Some? && r.lastCompleted.value.day == now.day
    ensures s.lastCompleted.None? ==> r == Streak(1, 1, Some(now))
    ensures s.lastCompleted.Some? && s.lastCompleted.value.day == now.day ==> r == s
    ensures s.lastCompleted.Some? && s.lastCompleted.value.day == now.day - 1 ==>
      r == Streak(s.current + 1, Max(s.longest, s.current + 1), Some(now))
    ensures s.lastCompleted.Some? && s.lastCompleted.value.day != now.day && s.lastCompleted.value.day != now.day - 1 ==>
      r == Streak(1, s.longest, Some(now))
    ensures StreakInv(s) ==> StreakInv(r) && 1 <= r.current && r.longest == Max(s.longest, r.current)
  {
    match s.lastCompleted
    case None => Streak(1, 1, Some(now))
    case Some(last) =>
      if last.day == now.day then s
      else if last.day == now.day - 1 then
        var current := s.current + 1;
        Streak(current, if current > s.longest then current else s.longest, Some(now))
      else
        Streak(1, s.longest, Some(now))
  }

  /** A second completion on the same calendar day leaves the streak as the first one left it. */
  lemma {:induction false} SameDayIdempotent(s: Streak, first: Instant, later: Instant)
    requires first.day == later.day
    ensures NextStreak(NextStreak(s, first), later) == NextStreak(s, first)
  {
  }

  /** Completing, skipping a day and completing again restarts the streak at 1 and keeps the longest streak. */
  lemma SkipDayRestarts(s: Streak, d: int, stamp1: int, stamp2: int)
    ensures var first := NextStreak(s, Instant(d, stamp1));
      var second := NextStreak(first, Instant(d + 2, stamp2));
      second.current == 1 && second.longest == first.longest
  {
  }

  /** The streak after completions at each of `nows`, in order. */
  function StreakAfter(s: Streak, nows: seq<Instant>): Streak
    decreases |nows|
  {
    if |nows| == 0 then s else NextStreak(StreakAfter(s, nows[..|nows| - 1]), nows[|nows| - 1])
  }

  /** Each completion falls on the same day as the previous one or on the next day. */
  predicate DailyRun(nows: seq<Instant>) {
    forall i :: 0 < i < |nows| ==> nows[i].day == nows[i - 1].day || nows[i].day == nows[i - 1].day + 1
  }

  /**
   * Starting from no completions, a run of completions with no missed day gives
   * a current streak equal to the number of calendar days it spans, however
   * many completions fall on each day; the longest streak is at least that.
   */
  lemma {:induction false} ConsecutiveDays(s: Streak, nows: seq<Instant>)
    requires StreakInv(s) && s.lastCompleted.None?
    requires |nows| > 0 && DailyRun(nows)
    ensures var r := StreakAfter(s, nows);
      && r.current == nows[|nows| - 1].day - nows[0].day + 1
      && r.longest >= r.current
      && r.lastCompleted.Some? && r.lastCompleted.value.day == nows[|nows| - 1].day
    decreases |nows|
  {
    var n := |nows|;
    if n > 1 {
      var init := nows[..n - 1];
      assert DailyRun(init) by {
        forall i | 0 < i < |init| ensures init[i].day == init[i - 1].day || init[i].day == init[i - 1].day + 1 {
          assert init[i] == nows[i] && init[i - 1] == nows[i - 1];
        }
      }
      ConsecutiveDays(s, init);
      StreakAfterInv(s, init);
      assert init[0] == nows[0] && init[n - 2] == nows[n - 2];
    }
  }

  lemma {:induction false} StreakAfterInv(s: Streak, nows: seq<Instant>)
    requires StreakInv(s)
    ensures StreakInv(StreakAfter(s, nows))
    decreases |nows|
  {
    if |nows| > 0 {
      StreakAfterInv(s, nows[..|nows| - 1]);
    }
  }

  // ---------------------------------------------------------------- level-up

  /** The next threshold: floor(1.5 * t), computed exactly on integers. */
  function NextThreshold(t: int): (r: int)
    ensures 2 * r <= 3 * t < 2 * r + 2
    ensures t >= 2 ==> r > t
  {
    (3 * t) / 2
  }

  /** The single level-up check run once per completion. */
  function LevelCheck(u: UserStats): (r: UserStats)
    ensures r == u.(level := r.level, experience := r.experience, experienceToNextLevel := r.experienceToNextLevel)
    ensures r.level == u.level + 1 <==> u.experience >= u.experienceToNextLevel
    ensures r.level == u.level || r.level == u.level + 1
    ensures r.level == u.level ==> r == u
    ensures u.experience >= 0 ==> r.experience >= 0
    ensures r.level == u.level + 1 ==> r.experience == u.experience - u.experienceToNextLevel && r.experienceToNextLevel == NextThreshold(u.experienceToNextLevel)
    ensures u.experienceToNextLevel >= 2 && r.level == u.level + 1 ==> r.experienceToNextLevel > u.experienceToNextLevel
  {
    if u.experience >= u.experienceToNextLevel then
      u.(level := u.level + 1,
         experience := u.experience - u.experienceToNextLevel,
         experienceToNextLevel := NextThreshold(u.experienceToNextLevel))
    else u
  }

  /** The threshold in force at a given level, from a fresh profile. */
  function ThresholdAt(level: int): (t: int)
    requires level >= 1
    ensures t >= InitialThreshold
    decreases level
  {
    if level == 1 then InitialThreshold else NextThreshold(ThresholdAt(level - 1))
  }

  /** The experience consumed by the level-ups that led to a given level. */
  function SpentXp(level: int): int
    requires level >= 1
    decreases level
  {
    if level == 1 then 0 else SpentXp(level - 1) + ThresholdAt(level - 1)
  }

  /**
   * Every point of experience is accounted for: what is held plus what the
   * level-ups consumed equals 10 per completion plus 25 per unlocked
   * achievement, and the threshold is the one the level calls for.
   */
  predicate Ledger(u: UserStats) {
    && u.level >= 1
    && u.experienceToNextLevel == ThresholdAt(u.level)
    && u.experience + SpentXp(u.level) == TaskXp * u.tasksCompleted + UnlockXp * Unlocked(u.achievements)
  }

  /** The single check can leave the experience above the new threshold: only one level is gained. */
  lemma OneLevelPerCheck()
    ensures var u := DefaultStats.(experience := 400);
      var r := LevelCheck(u);
      r.level == 2 && r.experience == 300 && r.experienceToNextLevel == 150
      && r.experience >= r.experienceToNextLevel
  {
  }

  // ------------------------------------------------------------- achievements

  /** The position of the first achievement with the given id, or -1. */
  function FindAchievement(l: seq<Achievement>, id: AchievementType): (r: int)
    ensures -1 <= r < |l|
    ensures 0 <= r ==> l[r].id == id && forall j :: 0 <= j < r ==> l[j].id != id
    ensures r < 0 <==> forall j :: 0 <= j < |l| ==> l[j].id != id
    decreases |l|
  {
    if |l| == 0 then -1
    else if l[0].id == id then 0
    else
      var k := FindAchievement(l[1..], id);
      if k < 0 then -1 else k + 1
  }

  /** In a list shaped like the default table, each type sits at its own slot. */
  lemma FindInTable(l: seq<Achievement>, id: AchievementType)
    requires SameTable(DefaultAchievements, l)
    ensures FindAchievement(l, id) == Ord(id)
  {
    OrdOfTable();
    var k := FindAchievement(l, id);
    assert l[Ord(id)].id == id;
    assert Ord(DefaultAchievements[k].id) == k;
  }

  /** One achievement given the new progress value (the body of updateAchievementProgress). */
  function Advance(a: Achievement, p: nat, now: Instant): (r: Achievement)
    ensures r == a.(progress := r.progress, unlockedAt := r.unlockedAt)
    ensures a.unlockedAt.Some? ==> r == a
    ensures a.unlockedAt.None? ==> (r.unlockedAt.Some? <==> p >= a.target)
    ensures a.unlockedAt.None? && r.unlockedAt.Some? ==> r.unlockedAt == Some(now) && r.progress == r.target
    ensures r.unlockedAt.None? ==> r.progress == p
    ensures AchievementInv(a) ==> AchievementInv(r)
  {
    if a.unlockedAt.Some? then a
    else if p >= a.target then a.(progress := a.target, unlockedAt := Some(now))
    else a.(progress := p)
  }

  /**
   * The statistics after offering progress `p` to achievement `id`: only the
   * first entry with that id may change, an unlocked entry never changes, and
   * the experience grows by 25 exactly when an entry becomes unlocked.
   */
  function RecordProgress(u: UserStats, id: AchievementType, p: nat, now: Instant): (r: UserStats)
    ensures r == u.(experience := r.experience, achievements := r.achievements)
    ensures SameTable(u.achievements, r.achievements)
    ensures forall j :: 0 <= j < |u.achievements| && (u.achievements[j].id != id || u.achievements[j].unlockedAt.Some?) ==>
      r.achievements[j] == u.achievements[j]
    ensures Unlocked(u.achievements) <= Unlocked(r.achievements) <= Unlocked(u.achievements) + 1
    ensures r.experience == u.experience + UnlockXp * (Unlocked(r.achievements) - Unlocked(u.achievements))
    ensures AchievementsInv(u.achievements) ==> AchievementsInv(r.achievements)
  {
    var i := FindAchievement(u.achievements, id);
    if i < 0 then u
    else
      var a := u.achievements[i];
      var a' := Advance(a, p, now);
      UnlockedUpdate(u.achievements, i, a');
      ReplaceEntry(u.achievements, i, a');
      u.(achievements := u.achievements[i := a'],
         experience := u.experience + (if a.unlockedAt.None? && a'.unlockedAt.Some? then UnlockXp else 0))
  }

  /** Replacing one entry by one with the same id and target keeps the table's shape, and the invariants when the entry keeps its own. */
  lemma ReplaceEntry(l: seq<Achievement>, i: int, a: Achievement)
    requires 0 <= i < |l|
    requires a.id == l[i].id && a.target == l[i].target
    requires AchievementInv(l[i]) ==> AchievementInv(a)
    ensures SameTable(l, l[i := a])
    ensures AchievementsInv(l) ==> AchievementsInv(l[i := a])
  {
    var l' := l[i := a];
    if AchievementsInv(l) {
      forall j | 0 <= j < |l'| ensures AchievementInv(l'[j]) && l'[j].id == DefaultAchievements[j].id
        && l'[j].target == DefaultAchievements[j].target {
        if j != i {
          assert l'[j] == l[j];
        }
      }
    }
  }

  /** In a table-shaped list the update lands on the slot of `id`. */
  lemma RecordProgressAt(u: UserStats, id: AchievementType, p: nat, now: Instant)
    requires SameTable(DefaultAchievements, u.achievements)
    ensures RecordProgress(u, id, p, now).achievements
         == u.achievements[Ord(id) := Advance(u.achievements[Ord(id)], p, now)]
  {
    FindInTable(u.achievements, id);
  }

  /** Which statistic feeds which achievement during recomputation (None: not fed). */
  function Signal(u: UserStats, tasks: seq<Task>, t: AchievementType): (r: Option<nat>)
    ensures r.None? <==> t == FocusMaster || t == SubtaskKing
  {
    match t
    case Streak3 | Streak7 | Streak30 => Some(u.streak.current)
    case Tasks10 | Tasks50 | Tasks100 => Some(u.tasksCompleted)
    case AllCategory => Some(|CompletedCategories(tasks)|)
    case FocusMaster | SubtaskKing => None
  }

  function Fed(a: Achievement, signal: Option<nat>, now: Instant): Achievement {
    match signal
    case None => a
    case Some(p) => Advance(a, p, now)
  }

  /** The progress offers updateAchievements makes, in the order it makes them. */
  function Feeds(u: UserStats, tasks: seq<Task>): seq<(AchievementType, nat)> {
    Offers(u.streak.current, u.tasksCompleted, |CompletedCategories(tasks)|)
  }

  /** The seven offers, given the current streak, the completion count and the number of completed categories. */
  function Offers(days: nat, done: nat, cats: nat): seq<(AchievementType, nat)> {
    [(Streak3, days), (Streak7, days), (Streak30, days),
     (Tasks10, done), (Tasks50, done), (Tasks100, done),
     (AllCategory, cats)]
  }

  /** The value the first offer to `t` carries, if any. */
  function Lookup(feeds: seq<(AchievementType, nat)>, t: AchievementType): Option<nat>
    decreases |feeds|
  {
    if |feeds| == 0 then None
    else if feeds[0].0 == t then Some(feeds[0].1)
    else Lookup(feeds[1..], t)
  }

  predicate Recomputable(feeds: seq<(AchievementType, nat)>) {
    forall i :: 0 <= i < |feeds| ==> feeds[i].0 != FocusMaster && feeds[i].0 != SubtaskKing
  }

  predicate DistinctOffers(feeds: seq<(AchievementType, nat)>) {
    forall i, j :: 0 <= i < j < |feeds| ==> feeds[i].0 != feeds[j].0
  }

  /**
   * `r` differs from `u` only in experience and achievements; the focus and
   * subtask achievements and every unlocked achievement are untouched, and
   * the experience grew by 25 per newly unlocked achievement.
   */
  predicate Evolved(u: UserStats, r: UserStats) {
    && r == u.(experience := r.experience, achievements := r.achievements)
    && SameTable(u.achievements, r.achievements)
    && (forall j :: 0 <= j < |u.achievements| && Frozen(u.achievements[j]) ==> r.achievements[j] == u.achievements[j])
    && Unlocked(u.achievements) <= Unlocked(r.achievements)
    && r.experience == u.experience + UnlockXp * (Unlocked(r.achievements) - Unlocked(u.achievements))
    && (AchievementsInv(u.achievements) ==> AchievementsInv(r.achievements))
  }

  /** Achievements that recomputation never touches. */
  predicate Frozen(a: Achievement) {
    a.id == FocusMaster || a.id == SubtaskKing || a.unlockedAt.Some?
  }

  lemma EvolvedTrans(a: UserStats, b: UserStats, c: UserStats)
    requires Evolved(a, b) && Evolved(b, c)
    ensures Evolved(a, c)
  {
    forall j | 0 <= j < |a.achievements| && Frozen(a.achievements[j])
      ensures c.achievements[j] == a.achievements[j]
    {
      assert b.achievements[j] == a.achievements[j];
    }
  }

  /** Applies the offers one after the other, as consecutive updateAchievementProgress calls do. */
  function FeedAll(u: UserStats, feeds: seq<(AchievementType, nat)>, now: Instant): (r: UserStats)
    ensures |r.achievements| == |u.achievements|
    decreases |feeds|
  {
    if |feeds| == 0 then u
    else FeedAll(RecordProgress(u, feeds[0].0, feeds[0].1, now), feeds[1..], now)
  }

  /** Offers to achievements other than the focus and subtask ones evolve the statistics. */
  lemma {:induction false} FeedAllEvolves(u: UserStats, feeds: seq<(AchievementType, nat)>, now: Instant)
    requires Recomputable(feeds)
    ensures Evolved(u, FeedAll(u, feeds, now))
    decreases |feeds|
  {
    if |feeds| > 0 {
      var v := RecordProgress(u, feeds[0].0, feeds[0].1, now);
      assert Recomputable(feeds[1..]);
      FeedAllEvolves(v, feeds[1..], now);
      EvolvedTrans(u, v, FeedAll(v, feeds[1..], now));
    }
  }

  lemma {:induction false} LookupAbsent(feeds: seq<(AchievementType, nat)>, t: AchievementType)
    requires forall i :: 0 <= i < |feeds| ==> feeds[i].0 != t
    ensures Lookup(feeds, t) == None
    decreases |feeds|
  {
    if |feeds| > 0 {
      LookupAbsent(feeds[1..], t);
    }
  }

  /** The first offer to `t` decides the lookup. */
  lemma {:induction false} LookupAt(feeds: seq<(AchievementType, nat)>, i: int, t: AchievementType)
    requires 0 <= i < |feeds| && feeds[i].0 == t
    requires forall j :: 0 <= j < i ==> feeds[j].0 != t
    ensures Lookup(feeds, t) == Some(feeds[i].1)
    decreases i
  {
    if i > 0 {
      LookupAt(feeds[1..], i - 1, t);
    }
  }

  /** With distinct offers on a table-shaped list, each slot receives the offer made to its own type. */
  lemma {:induction false} FeedAllSlots(u: UserStats, feeds: seq<(AchievementType, nat)>, now: Instant)
    requires SameTable(DefaultAchievements, u.achievements)
    requires Recomputable(feeds) && DistinctOffers(feeds)
    ensures forall k :: 0 <= k < |u.achievements| ==>
      FeedAll(u, feeds, now).achievements[k] == Fed(u.achievements[k], Lookup(feeds, u.achievements[k].id), now)
    decreases |feeds|
  {
    if |feeds| > 0 {
      var id, p := feeds[0].0, feeds[0].1;
      var v := RecordProgress(u, id, p, now);
      var rest := feeds[1..];
      var r := FeedAll(v, rest, now);
      assert FeedAll(u, feeds, now) == r;
      RecordProgressAt(u, id, p, now);
      assert Recomputable(rest) && DistinctOffers(rest);
      FeedAllSlots(v, rest, now);
      forall k | 0 <= k < |u.achievements|
        ensures r.achievements[k] == Fed(u.achievements[k], Lookup(feeds, u.achievements[k].id), now)
      {
        FeedSlot(u, v, r, feeds, k, now);
      }
    }
  }

  /** One slot of the induction step of FeedAllSlots. */
  lemma {:induction false} FeedSlot(u: UserStats, v: UserStats, r: UserStats, feeds: seq<(AchievementType, nat)>, k: int, now: Instant)
    requires SameTable(DefaultAchievements, u.achievements) && 0 <= k < |u.achievements|
    requires |feeds| > 0 && DistinctOffers(feeds)
    requires v.achievements == u.achievements[Ord(feeds[0].0) := Advance(u.achievements[Ord(feeds[0].0)], feeds[0].1, now)]
    requires |r.achievements| == |u.achievements|
    requires r.achievements[k] == Fed(v.achievements[k], Lookup(feeds[1..], v.achievements[k].id), now)
    ensures r.achievements[k] == Fed(u.achievements[k], Lookup(feeds, u.achievements[k].id), now)
  {
    var id := feeds[0].0;
    OrdOfTable();
    assert Ord(DefaultAchievements[k].id) == k;
    if u.achievements[k].id == id {
      LookupAbsent(feeds[1..], id);
    }
  }

  /** The statistics after recomputing the achievements from the streak, the count and the tasks (updateAchievements). */
  function RecomputeAchievements(u: UserStats, tasks: seq<Task>, now: Instant): (r: UserStats)
    ensures r == u.(experience := r.experience, achievements := r.achievements)
    ensures SameTable(u.achievements, r.achievements)
    ensures forall j :: 0 <= j < |u.achievements| && Frozen(u.achievements[j]) ==> r.achievements[j] == u.achievements[j]
    ensures Unlocked(u.achievements) <= Unlocked(r.achievements)
    ensures r.experience == u.experience + UnlockXp * (Unlocked(r.achievements) - Unlocked(u.achievements))
    ensures AchievementsInv(u.achievements) ==> AchievementsInv(r.achievements)
  {
    FeedsDistinct(u, tasks);
    FeedAllEvolves(u, Feeds(u, tasks), now);
    FeedAll(u, Feeds(u, tasks), now)
  }

  lemma FeedAllUnfold(u: UserStats, feeds: seq<(AchievementType, nat)>, now: Instant)
    requires |feeds| > 0
    ensures FeedAll(u, feeds, now) == FeedAll(RecordProgress(u, feeds[0].0, feeds[0].1, now), feeds[1..], now)
  {
  }

  /** Three consecutive offers at the head of the list. */
  lemma FeedThree(u: UserStats, a: AchievementType, b: AchievementType, c: AchievementType, p: nat,
                  rest: seq<(AchievementType, nat)>, now: Instant)
    ensures FeedAll(u, [(a, p), (b, p), (c, p)] + rest, now)
         == FeedAll(RecordProgress(RecordProgress(RecordProgress(u, a, p, now), b, p, now), c, p, now), rest, now)
  {
    var f := [(a, p), (b, p), (c, p)] + rest;
    assert f[1..] == [(b, p), (c, p)] + rest;
    assert f[2..] == [(c, p)] + rest;
    assert f[3..] == rest;
    var s1 := RecordProgress(u, a, p, now);
    var s2 := RecordProgress(s1, b, p, now);
    FeedAllUnfold(u, f, now);
    FeedAllUnfold(s1, f[1..], now);
    assert f[1..][1..] == f[2..];
    FeedAllUnfold(s2, f[2..], now);
    assert f[2..][1..] == f[3..];
  }

  /**
   * Recomputation is the seven consecutive offers of updateAchievements, each
   * reading the streak, the count and the categories as they stand before it.
   */
  lemma RecomputeUnfolds(u: UserStats, tasks: seq<Task>, now: Instant)
    ensures var d, n, c := u.streak.current, u.tasksCompleted, |CompletedCategories(tasks)|;
      RecomputeAchievements(u, tasks, now)
      == RecordProgress(RecordProgress(RecordProgress(RecordProgress(RecordProgress(RecordProgress(RecordProgress(
           u, Streak3, d, now), Streak7, d, now), Streak30, d, now), Tasks10, n, now), Tasks50, n, now), Tasks100, n, now),
           AllCategory, c, now)
  {
    var d, n, c := u.streak.current, u.tasksCompleted, |CompletedCategories(tasks)|;
    var last: seq<(AchievementType, nat)> := [(AllCategory, c)];
    var counts: seq<(AchievementType, nat)> := [(Tasks10, n), (Tasks50, n), (Tasks100, n)] + last;
    assert Feeds(u, tasks) == [(Streak3, d), (Streak7, d), (Streak30, d)] + counts;
    FeedThree(u, Streak3, Streak7, Streak30, d, counts, now);
    var s3 := RecordProgress(RecordProgress(RecordProgress(u, Streak3, d, now), Streak7, d, now), Streak30, d, now);
    FeedThree(s3, Tasks10, Tasks50, Tasks100, n, last, now);
    var s6 := RecordProgress(RecordProgress(RecordProgress(s3, Tasks10, n, now), Tasks50, n, now), Tasks100, n, now);
    FeedAllUnfold(s6, last, now);
    assert last[1..] == [];
  }

  /** The offers of updateAchievements go to distinct achievements, none of them the focus or subtask one. */
  lemma FeedsDistinct(u: UserStats, tasks: seq<Task>)
    ensures Recomputable(Feeds(u, tasks)) && DistinctOffers(Feeds(u, tasks))
    ensures forall i :: 0 <= i < |Feeds(u, tasks)| ==> Ord(Feeds(u, tasks)[i].0) == i
  {
    OffersDistinct(u.streak.current, u.tasksCompleted, |CompletedCategories(tasks)|);
  }

  lemma OffersDistinct(days: nat, done: nat, cats: nat)
    ensures var feeds := Offers(days, done, cats);
      && Recomputable(feeds) && DistinctOffers(feeds)
      && forall i :: 0 <= i < |feeds| ==> Ord(feeds[i].0) == i
  {
    var feeds := Offers(days, done, cats);
    forall i | 0 <= i < |feeds| ensures Ord(feeds[i].0) == i {
      if i == 0 { } else if i == 1 { } else if i == 2 { } else if i == 3 { }
      else if i == 4 { } else if i == 5 { } else { }
    }
    forall i, j | 0 <= i < j < |feeds| ensures feeds[i].0 != feeds[j].0 {
      assert Ord(feeds[i].0) == i && Ord(feeds[j].0) == j;
    }
    forall i | 0 <= i < |feeds| ensures feeds[i].0 != FocusMaster && feeds[i].0 != SubtaskKing {
      assert Ord(feeds[i].0) == i < Ord(FocusMaster) < Ord(SubtaskKing);
    }
  }

  /** With distinct offers, the offer at slot `i` is the one found for its achievement. */
  lemma DistinctLookup(feeds: seq<(AchievementType, nat)>, i: int)
    requires DistinctOffers(feeds) && 0 <= i < |feeds|
    ensures Lookup(feeds, feeds[i].0) == Some(feeds[i].1)
  {
    LookupAt(feeds, i, feeds[i].0);
  }

  /** The offers of updateAchievements follow the feed table. */
  lemma FeedsFollowSignal(u: UserStats, tasks: seq<Task>, t: AchievementType)
    ensures Lookup(Feeds(u, tasks), t) == Signal(u, tasks, t)
  {
    var feeds := Feeds(u, tasks);
    FeedsDistinct(u, tasks);
    if Ord(t) < |feeds| {
      assert Ord(feeds[Ord(t)].0) == Ord(t);
      DistinctLookup(feeds, Ord(t));
    } else {
      LookupAbsent(feeds, t);
    }
  }

  /**
   * Slot by slot, recomputation advances each fed achievement with its own
   * statistic and leaves the focus and subtask achievements as they were.
   */
  lemma RecomputeFeeds(u: UserStats, tasks: seq<Task>, now: Instant)
    requires AchievementsInv(u.achievements)
    ensures var r := RecomputeAchievements(u, tasks, now);
      forall k :: 0 <= k < |u.achievements| ==>
        r.achievements[k] == Fed(u.achievements[k], Signal(u, tasks, u.achievements[k].id), now)
  {
    FeedsDistinct(u, tasks);
    forall t ensures Lookup(Feeds(u, tasks), t) == Signal(u, tasks, t) {
      FeedsFollowSignal(u, tasks, t);
    }
    FeedAllSlots(u, Feeds(u, tasks), now);
  }

  /** All-categories unlocks exactly when every category has a completed task (or it already had). */
  lemma AllCategoryUnlock(u: UserStats, tasks: seq<Task>, now: Instant)
    requires AchievementsInv(u.achievements)
    ensures var a := RecomputeAchievements(u, tasks, now).achievements[Ord(AllCategory)];
      a.unlockedAt.Some? <==>
        (u.achievements[Ord(AllCategory)].unlockedAt.Some? || forall c: Category :: c in CompletedCategories(tasks))
  {
    RecomputeFeeds(u, tasks, now);
    CategoryCount(tasks);
  }

  /** Once an offer unlocks an achievement, later offers to it change nothing and award nothing. */
  lemma UnlockAwardsOnce(u: UserStats, id: AchievementType, p: nat, q: nat, now: Instant, later: Instant)
    requires SameTable(DefaultAchievements, u.achievements)
    requires RecordProgress(u, id, p, now).achievements[Ord(id)].unlockedAt.Some?
    ensures var v := RecordProgress(u, id, p, now);
      RecordProgress(v, id, q, later) == v
  {
    RecordProgressAt(u, id, p, now);
    var v := RecordProgress(u, id, p, now);
    RecordProgressAt(v, id, q, later);
    assert v.achievements[Ord(id) := v.achievements[Ord(id)]] == v.achievements;
  }

  /**
   * Progress follows the current streak rather than its peak: a streak
   * achievement's progress goes back down when the streak breaks.
   */
  lemma StreakProgressCanDrop()
    ensures var a := DefaultAchievements[Ord(Streak7)].(progress := 5);
      var r := Advance(a, 1, Instant(10, 0));
      r.progress == 1 < a.progress && r.unlockedAt.None?
  {
  }

  lemma {:induction false} UnlockedMono(l: seq<Achievement>, l': seq<Achievement>)
    requires |l| == |l'|
    requires forall j :: 0 <= j < |l| ==> Flag(l[j]) <= Flag(l'[j])
    ensures Unlocked(l) <= Unlocked(l')
    decreases |l|
  {
    var n := |l|;
    if n > 0 {
      UnlockedMono(l[..n - 1], l'[..n - 1]);
    }
  }

  /** A list that unlocked one more entry and lost none counts strictly more unlocks. */
  lemma {:induction false} UnlockedGrows(l: seq<Achievement>, l': seq<Achievement>, k: int)
    requires |l| == |l'| && 0 <= k < |l|
    requires forall j :: 0 <= j < |l| ==> Flag(l[j]) <= Flag(l'[j])
    requires Flag(l[k]) < Flag(l'[k])
    ensures Unlocked(l) < Unlocked(l')
    decreases |l|
  {
    var n := |l|;
    if k == n - 1 {
      UnlockedMono(l[..n - 1], l'[..n - 1]);
    } else {
      UnlockedGrows(l[..n - 1], l'[..n - 1], k);
    }
  }

  // ------------------------------------------------------------------ events

  /** The statistics after one task completion, given the task list with that task already marked (completeTask). */
  function CompletionStats(u: UserStats, tasks: seq<Task>, now: Instant): (r: UserStats)
    ensures r.tasksCompleted == u.tasksCompleted + 1 && r.focusTime == u.focusTime
    ensures r.streak == NextStreak(u.streak, now)
    ensures var leveled := u.experience + TaskXp >= u.experienceToNextLevel;
      && r.level == (if leveled then u.level + 1 else u.level)
      && r.experienceToNextLevel == (if leveled then NextThreshold(u.experienceToNextLevel) else u.experienceToNextLevel)
      && r.experience == u.experience + TaskXp - (if leveled then u.experienceToNextLevel else 0)
                         + UnlockXp * (Unlocked(r.achievements) - Unlocked(u.achievements))
  {
    var counted := u.(tasksCompleted := u.tasksCompleted + 1, experience := u.experience + TaskXp);
    var streaked := counted.(streak := NextStreak(counted.streak, now));
    RecomputeAchievements(LevelCheck(streaked), tasks, now)
  }

  /** The level-up check keeps the invariants and the ledger: the consumed threshold moves into the spent experience. */
  lemma LevelCheckKeepsInvariants(u: UserStats)
    ensures StatsInv(u) ==> StatsInv(LevelCheck(u))
    ensures Ledger(u) ==> Ledger(LevelCheck(u))
  {
    var r := LevelCheck(u);
    if r.level == u.level + 1 && u.level >= 1 {
      assert ThresholdAt(r.level) == NextThreshold(ThresholdAt(u.level));
      assert SpentXp(r.level) == SpentXp(u.level) + ThresholdAt(u.level);
    }
  }

  /** Recomputing the achievements keeps the invariants and the ledger: 25 experience per new unlock. */
  lemma RecomputeKeepsInvariants(u: UserStats, tasks: seq<Task>, now: Instant)
    ensures StatsInv(u) ==> StatsInv(RecomputeAchievements(u, tasks, now))
    ensures Ledger(u) ==> Ledger(RecomputeAchievements(u, tasks, now))
  {
  }

  /** A completion keeps the statistics' invariants. */
  lemma CompletionKeepsInvariants(u: UserStats, tasks: seq<Task>, now: Instant)
    requires StatsInv(u)
    ensures StatsInv(CompletionStats(u, tasks, now))
  {
    var counted := u.(tasksCompleted := u.tasksCompleted + 1, experience := u.experience + TaskXp);
    var streaked := counted.(streak := NextStreak(counted.streak, now));
    assert StatsInv(streaked);
    LevelCheckKeepsInvariants(streaked);
    RecomputeKeepsInvariants(LevelCheck(streaked), tasks, now);
    CompletionSteps(u, tasks, now);
  }

  /** A completion keeps the experience ledger: 10 for the task, 25 per new unlock, whatever the level-up consumed. */
  lemma CompletionKeepsLedger(u: UserStats, tasks: seq<Task>, now: Instant)
    requires Ledger(u)
    ensures Ledger(CompletionStats(u, tasks, now))
  {
    var counted := u.(tasksCompleted := u.tasksCompleted + 1, experience := u.experience + TaskXp);
    assert Ledger(counted);
    var streaked := counted.(streak := NextStreak(counted.streak, now));
    assert Ledger(streaked);
    LevelCheckKeepsInvariants(streaked);
    RecomputeKeepsInvariants(LevelCheck(streaked), tasks, now);
    CompletionSteps(u, tasks, now);
  }

  /** The steps of a completion, in completeTask's order. */
  lemma {:induction false} CompletionSteps(u: UserStats, tasks: seq<Task>, now: Instant)
    ensures var counted := u.(tasksCompleted := u.tasksCompleted + 1, experience := u.experience + TaskXp);
      CompletionStats(u, tasks, now)
      == RecomputeAchievements(LevelCheck(counted.(streak := NextStreak(counted.streak, now))), tasks, now)
  {
  }

  /** A recomputation offered at least ten completions unlocks the locked ten-task achievement. */
  lemma Tasks10Unlocks(v: UserStats, tasks: seq<Task>, now: Instant)
    requires AchievementsInv(v.achievements)
    requires v.achievements[Ord(Tasks10)].unlockedAt.None? && v.tasksCompleted >= 10
    ensures Unlocked(v.achievements) < Unlocked(RecomputeAchievements(v, tasks, now).achievements)
  {
    var r := RecomputeAchievements(v, tasks, now);
    RecomputeFeeds(v, tasks, now);
    var l, l' := v.achievements, r.achievements;
    var k := Ord(Tasks10);
    assert l[k].id == Tasks10;
    assert l'[k] == Advance(l[k], v.tasksCompleted, now);
    forall j | 0 <= j < |l| ensures Flag(l[j]) <= Flag(l'[j]) {
      if l[j].unlockedAt.Some? {
        assert Frozen(l[j]);
      }
    }
    UnlockedGrows(l, l', k);
  }

  /**
   * Unlock experience is added after the level-up check: a completion that
   * stays below the threshold but unlocks the ten-task achievement ends with
   * 35 more experience and no new level, possibly above the threshold.
   */
  lemma UnlockAfterLevelCheck(u: UserStats, tasks: seq<Task>, now: Instant)
    requires StatsInv(u)
    requires u.experience + TaskXp < u.experienceToNextLevel
    requires u.achievements[Ord(Tasks10)].unlockedAt.None? && u.tasksCompleted + 1 >= 10
    ensures var r := CompletionStats(u, tasks, now);
      && r.level == u.level && r.experienceToNextLevel == u.experienceToNextLevel
      && r.experience >= u.experience + TaskXp + UnlockXp
      && (u.experience + TaskXp + UnlockXp >= u.experienceToNextLevel ==> r.experience >= r.experienceToNextLevel)
  {
    var counted := u.(tasksCompleted := u.tasksCompleted + 1, experience := u.experience + TaskXp);
    var streaked := counted.(streak := NextStreak(counted.streak, now));
    assert LevelCheck(streaked) == streaked;
    CompletionSteps(u, tasks, now);
    Tasks10Unlocks(streaked, tasks, now);
  }

  /** The statistics after crediting `minutes` of focus time (addFocusTime). */
  function FocusStats(u: UserStats, minutes: nat, now: Instant): (r: UserStats)
    ensures r.focusTime == u.focusTime + minutes
    ensures r == u.(focusTime := r.focusTime, experience := r.experience, achievements := r.achievements)
    ensures SameTable(u.achievements, r.achievements)
    ensures forall j :: 0 <= j < |u.achievements| && u.achievements[j].id != FocusMaster ==>
      r.achievements[j] == u.achievements[j]
    ensures Unlocked(u.achievements) <= Unlocked(r.achievements) <= Unlocked(u.achievements) + 1
    ensures r.experience == u.experience + UnlockXp * (Unlocked(r.achievements) - Unlocked(u.achievements))
    ensures StatsInv(u) ==> StatsInv(r)
    ensures Ledger(u) ==> Ledger(r)
  {
    var added := u.(focusTime := u.focusTime + minutes);
    RecordProgress(added, FocusMaster, added.focusTime, now)
  }

  /** Focus master unlocks exactly when the accumulated minutes reach 300 (or it already had). */
  lemma FocusMasterUnlock(u: UserStats, minutes: nat, now: Instant)
    requires AchievementsInv(u.achievements)
    ensures var a := FocusStats(u, minutes, now).achievements[Ord(FocusMaster)];
      && (a.unlockedAt.Some? <==> (u.achievements[Ord(FocusMaster)].unlockedAt.Some? || u.focusTime + minutes >= 300))
      && (a.unlockedAt.None? ==> a.progress == u.focusTime + minutes)
  {
    RecordProgressAt(u.(focusTime := u.focusTime + minutes), FocusMaster, u.focusTime + minutes, now);
  }

  /** Crediting minutes that carry the total to the target unlocks the locked focus achievement, at `now`, for 25 experience. */
  lemma FocusUnlockAt(u: UserStats, minutes: nat, now: Instant)
    requires AchievementsInv(u.achievements)
    requires u.achievements[Ord(FocusMaster)].unlockedAt.None?
    requires u.focusTime + minutes >= u.achievements[Ord(FocusMaster)].target
    ensures var a := FocusStats(u, minutes, now).achievements[Ord(FocusMaster)];
      && a.unlockedAt == Some(now) && a.progress == a.target
    ensures FocusStats(u, minutes, now).experience == u.experience + UnlockXp
  {
    var k := Ord(FocusMaster);
    var v := u.(focusTime := u.focusTime + minutes);
    var a := Advance(u.achievements[k], v.focusTime, now);
    RecordProgressAt(v, FocusMaster, v.focusTime, now);
    UnlockedUpdate(u.achievements, k, a);
  }

  /** Three hundred minutes credited to a fresh profile unlock the focus achievement in one call, worth 25 experience. */
  lemma FiveHoursFromFresh(now: Instant)
    ensures var r := FocusStats(DefaultStats, 300, now);
      && r.focusTime == 300
      && r.achievements[Ord(FocusMaster)].unlockedAt == Some(now)
      && r.achievements[Ord(FocusMaster)].progress == 300
      && r.experience == 25
  {
    DefaultStatsValid();
    assert DefaultAchievements[Ord(FocusMaster)].target == 300;
    FocusUnlockAt(DefaultStats, 300, now);
  }

  lemma {:induction false} NoneUnlocked(l: seq<Achievement>)
    requires forall i :: 0 <= i < |l| ==> l[i].unlockedAt.None?
    ensures Unlocked(l) == 0
    decreases |l|
  {
    if |l| > 0 {
      NoneUnlocked(l[..|l| - 1]);
    }
  }

  /** The fresh profile satisfies every invariant. */
  lemma DefaultStatsValid()
    ensures StatsInv(DefaultStats) && Ledger(DefaultStats) && Unlocked(DefaultAchievements) == 0
  {
    NoneUnlocked(DefaultAchievements);
  }
}
