/**
 * The persistent store of src/utils/storage.ts, held in memory: the task list
 * and the user statistics that `localStorage` keeps under their two keys.
 * Every exported operation reads both, updates them step by step and writes
 * them back; here the reads and writes are the fields of one `Store`.
 */
module Storage {
  import opened Types
  import opened Tasks
  import opened Gamification

  /** The task marked as completed at `now`. */
  function MarkCompleted(t: Task, now: Instant): (r: Task)
    ensures r.completed && r.completedAt == Some(now)
    ensures r == t.(completed := r.completed, completedAt := r.completedAt)
  {
    t.(completed := true, completedAt := Some(now))
  }

  /**
   * Tasks and statistics after completing the task `id` at `now` (completeTask).
   * An unknown id changes nothing. A known id is marked completed, even when it
   * already was, and the statistics take one completion against the updated list.
   */
  function Completion(tasks: seq<Task>, stats: UserStats, id: string, now: Instant): (r: (seq<Task>, UserStats))
    ensures var i := FindTask(tasks, id);
      && (i < 0 ==> r == (tasks, stats))
      && (0 <= i ==>
            && |r.0| == |tasks|
            && r.0[i] == MarkCompleted(tasks[i], now)
            && (forall j :: 0 <= j < |tasks| && j != i ==> r.0[j] == tasks[j])
            && tasks[i].category in CompletedCategories(r.0)
            && r.1 == CompletionStats(stats, r.0, now))
    ensures UniqueIds(tasks) ==> UniqueIds(r.0)
  {
    var i := FindTask(tasks, id);
    if i < 0 then (tasks, stats)
    else
      var tasks' := tasks[i := MarkCompleted(tasks[i], now)];
      assert tasks'[i].completed;
      (tasks', CompletionStats(stats, tasks', now))
  }

  /** A completion keeps the statistics' invariants and the experience ledger. */
  lemma CompletionKeepsValid(tasks: seq<Task>, stats: UserStats, id: string, now: Instant)
    requires StatsInv(stats) && Ledger(stats)
    ensures StatsInv(Completion(tasks, stats, id, now).1) && Ledger(Completion(tasks, stats, id, now).1)
  {
    var i := FindTask(tasks, id);
    if i >= 0 {
      var tasks' := tasks[i := MarkCompleted(tasks[i], now)];
      CompletionKeepsInvariants(stats, tasks', now);
      CompletionKeepsLedger(stats, tasks', now);
    }
  }

  /** Completing a task again counts again: there is no guard against re-completion. */
  lemma RecompletionCounts(tasks: seq<Task>, stats: UserStats, id: string, first: Instant, second: Instant)
    requires FindTask(tasks, id) >= 0
    ensures var (tasks1, stats1) := Completion(tasks, stats, id, first);
      var (tasks2, stats2) := Completion(tasks1, stats1, id, second);
      && tasks1[FindTask(tasks, id)].completed
      && stats2.tasksCompleted == stats.tasksCompleted + 2
  {
    var i := FindTask(tasks, id);
    var (tasks1, stats1) := Completion(tasks, stats, id, first);
    assert tasks1[i].id == id;
    assert FindTask(tasks1, id) == i;
  }

  /** The in-memory store: the task list and the statistics. */
  class Store {
    var tasks: seq<Task>
    var stats: UserStats

    /** Ids are unique, the statistics keep their invariants and every point of experience is accounted for. */
    ghost predicate Valid()
      reads this
    {
      UniqueIds(tasks) && StatsInv(stats) && Ledger(stats)
    }

    /** An empty store: no tasks, and the default statistics `getUserStats` falls back to. */
    constructor ()
      ensures Valid()
      ensures tasks == [] && stats == DefaultStats
    {
      tasks := [];
      stats := DefaultStats;
      DefaultStatsValid();
    }

    /** saveTask: replace the task with the same id in place, or append. */
    method SaveTask(task: Task)
      modifies this
      ensures tasks == Upsert(old(tasks), task)
      ensures stats == old(stats)
      ensures old(Valid()) ==> Valid()
    {
      var i := FindTask(tasks, task.id);
      if i >= 0 {
        tasks := tasks[i := task];
      } else {
        tasks := tasks + [task];
      }
    }

    /** deleteTask: keep the tasks whose id differs, in their order. */
    method DeleteTask(id: string)
      modifies this
      ensures tasks == WithoutTask(old(tasks), id)
      ensures stats == old(stats)
      ensures old(Valid()) ==> Valid()
    {
      if UniqueIds(tasks) {
        WithoutTaskUnique(tasks, id);
      }
      tasks := WithoutTask(tasks, id);
    }

    /** updateStreak, applied to the statistics held by the store. */
    method UpdateStreak(now: Instant)
      modifies this
      ensures stats == old(stats).(streak := NextStreak(old(stats).streak, now))
      ensures tasks == old(tasks)
      ensures old(Valid()) ==> Valid()
    {
      var s := stats.streak;
      match s.lastCompleted {
        case None =>
          s := Streak(1, 1, Some(now));
        case Some(last) =>
          if last.day != now.day {
            if last.day == now.day - 1 {
              s := s.(current := s.current + 1);
              if s.current > s.longest {
                s := s.(longest := s.current);
              }
            } else {
              s := s.(current := 1);
            }
            s := s.(lastCompleted := Some(now));
          }
      }
      stats := stats.(streak := s);
    }

    /** updateAchievementProgress: offer progress `p` to the first achievement with id `id`. */
    method UpdateAchievementProgress(id: AchievementType, p: nat, now: Instant)
      modifies this
      ensures stats == RecordProgress(old(stats), id, p, now)
      ensures tasks == old(tasks)
      ensures old(Valid()) ==> Valid()
    {
      var i := FindAchievement(stats.achievements, id);
      if i >= 0 {
        var a := stats.achievements[i];
        if a.unlockedAt.None? {
          a := a.(progress := p);
          var xp := stats.experience;
          if a.progress >= a.target {
            a := a.(progress := a.target, unlockedAt := Some(now));
            xp := xp + UnlockXp;
          }
          stats := stats.(achievements := stats.achievements[i := a], experience := xp);
        }
      }
    }

    /** updateAchievements: the seven progress offers, in updateAchievements' order, against the current task list. */
    method UpdateAchievements(now: Instant)
      modifies this
      ensures stats == RecomputeAchievements(old(stats), tasks, now)
      ensures tasks == old(tasks)
      ensures old(Valid()) ==> Valid()
    {
      ghost var u := stats;
      UpdateAchievementProgress(Streak3, stats.streak.current, now);
      UpdateAchievementProgress(Streak7, stats.streak.current, now);
      UpdateAchievementProgress(Streak30, stats.streak.current, now);
      UpdateAchievementProgress(Tasks10, stats.tasksCompleted, now);
      UpdateAchievementProgress(Tasks50, stats.tasksCompleted, now);
      UpdateAchievementProgress(Tasks100, stats.tasksCompleted, now);
      var uniqueCategories := CompletedCategories(tasks);
      UpdateAchievementProgress(AllCategory, |uniqueCategories|, now);
      RecomputeUnfolds(u, tasks, now);
    }

    /** completeTask: mark the task, then count the completion against the updated list. */
    method CompleteTask(id: string, now: Instant)
      modifies this
      ensures (tasks, stats) == Completion(old(tasks), old(stats), id, now)
      ensures old(Valid()) ==> Valid()
    {
      var i := FindTask(tasks, id);
      if i >= 0 {
        tasks := tasks[i := tasks[i].(completed := true, completedAt := Some(now))];
        assert tasks == old(tasks)[i := MarkCompleted(old(tasks)[i], now)];
        CountCompletion(now);
      }
      if old(Valid()) {
        CompletionKeepsValid(old(tasks), old(stats), id, now);
      }
    }

    /** The statistics part of completeTask: count it, update the streak, check the level once, recompute the achievements. */
    method CountCompletion(now: Instant)
      modifies this
      ensures stats == CompletionStats(old(stats), tasks, now)
      ensures tasks == old(tasks)
    {
      ghost var u := stats;
      stats := stats.(tasksCompleted := stats.tasksCompleted + 1, experience := stats.experience + TaskXp);
      UpdateStreak(now);
      ghost var streaked := stats;
      if stats.experience >= stats.experienceToNextLevel {
        stats := stats.(level := stats.level + 1,
                        experience := stats.experience - stats.experienceToNextLevel,
                        experienceToNextLevel := NextThreshold(stats.experienceToNextLevel));
      }
      assert stats == LevelCheck(streaked);
      UpdateAchievements(now);
      CompletionSteps(u, tasks, now);
    }

    /** addFocusTime: add the minutes, then offer the new total to the focus achievement. */
    method AddFocusTime(minutes: nat, now: Instant)
      modifies this
      ensures stats == FocusStats(old(stats), minutes, now)
      ensures tasks == old(tasks)
      ensures old(Valid()) ==> Valid()
    {
      stats := stats.(focusTime := stats.focusTime + minutes);
      UpdateAchievementProgress(FocusMaster, stats.focusTime, now);
    }
  }
}
