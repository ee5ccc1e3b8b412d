/**
 * The entities of the task tracker (src/types/index.ts).
 *
 * Timestamps, which the application stores as ISO strings and compares only
 * through their local calendar day, are modelled by `Instant`: the local day
 * number the reading falls on, and the raw clock reading itself.
 */
module Types {

  datatype Option<+T> = None | Some(value: T)

  datatype Category = Work | Personal | Health | Finance | Education | Other
  datatype Priority = Low | Medium | High
  datatype Frequency = Daily | Weekly | Monthly | Once

  /** A clock reading: `day` is its local calendar day, `stamp` the exact reading. */
  datatype Instant = Instant(day: int, stamp: int)

  datatype SubTask = SubTask(id: string, title: string, completed: bool)

  datatype Task = Task(
    id: string,
    title: string,
    description: Option<string>,
    category: Category,
    priority: Priority,
    frequency: Frequency,
    dueDate: Option<string>,
    reminderTime: Option<string>,
    completed: bool,
    completedAt: Option<Instant>,
    createdAt: Instant,
    subtasks: seq<SubTask>,
    isInFocus: Option<bool>)

  datatype Streak = Streak(current: nat, longest: nat, lastCompleted: Option<Instant>)

  /** The closed set of achievement identifiers. */
  datatype AchievementType =
    | Streak3 | Streak7 | Streak30
    | Tasks10 | Tasks50 | Tasks100
    | AllCategory | FocusMaster | SubtaskKing

  datatype Achievement = Achievement(
    id: AchievementType,
    title: string,
    description: string,
    icon: string,
    unlockedAt: Option<Instant>,
    progress: nat,
    target: nat)

  datatype UserStats = UserStats(
    level: int,
    experience: int,
    experienceToNextLevel: int,
    tasksCompleted: nat,
    streak: Streak,
    achievements: seq<Achievement>,
    focusTime: nat)  // minutes

  datatype Theme = Light | Dark | System

  datatype UserPreferences = UserPreferences(
    theme: Theme,
    notifications: bool,
    soundEffects: bool,
    focusDuration: nat,  // minutes
    breakDuration: nat)  // minutes
}
