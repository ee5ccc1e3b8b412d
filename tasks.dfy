/**
 * The task-collection helpers of src/utils/storage.ts: locating a task by id
 * (`findIndex`), removing tasks by id (`filter`), and the set of categories
 * among completed tasks that feeds the all-categories achievement.
 */
module Tasks {
  import opened Types

  /** The position of the first task carrying `id`, or -1 when there is none. */
  function FindTask(tasks: seq<Task>, id: string): (r: int)
    ensures -1 <= r < |tasks|
    ensures 0 <= r ==> tasks[r].id == id && forall j :: 0 <= j < r ==> tasks[j].id != id
    ensures r < 0 <==> forall j :: 0 <= j < |tasks| ==> tasks[j].id != id
    decreases |tasks|
  {
    if |tasks| == 0 then -1
    else if tasks[0].id == id then 0
    else
      var k := FindTask(tasks[1..], id);
      if k < 0 then -1 else k + 1
  }

  /** No two tasks of the list share an id. */
  predicate UniqueIds(tasks: seq<Task>) {
    forall i, j :: 0 <= i < j < |tasks| ==> tasks[i].id != tasks[j].id
  }

  /** The list without the tasks carrying `id`, the others kept in order. */
  function WithoutTask(tasks: seq<Task>, id: string): (r: seq<Task>)
    ensures |r| <= |tasks|
    ensures forall t :: t in r <==> t in tasks && t.id != id
    decreases |tasks|
  {
    if |tasks| == 0 then []
    else (if tasks[0].id == id then [] else [tasks[0]]) + WithoutTask(tasks[1..], id)
  }

  /** Removal distributes over concatenation: the kept tasks stay in their order. */
  lemma {:induction false} WithoutTaskAppend(a: seq<Task>, b: seq<Task>, id: string)
    ensures WithoutTask(a + b, id) == WithoutTask(a, id) + WithoutTask(b, id)
    decreases |a|
  {
    if |a| > 0 {
      assert (a + b)[1..] == a[1..] + b;
      WithoutTaskAppend(a[1..], b, id);
    } else {
      assert a + b == b;
    }
  }

  /** A list that holds no task with `id` is left as it is. */
  lemma {:induction false} WithoutTaskAbsent(tasks: seq<Task>, id: string)
    requires forall j :: 0 <= j < |tasks| ==> tasks[j].id != id
    ensures WithoutTask(tasks, id) == tasks
    decreases |tasks|
  {
    if |tasks| > 0 {
      WithoutTaskAbsent(tasks[1..], id);
      assert [tasks[0]] + tasks[1..] == tasks;
    }
  }

  /** Dropping one slot from a list with unique ids keeps the ids unique. */
  lemma UniqueWithoutSlot(tasks: seq<Task>, i: int)
    requires UniqueIds(tasks) && 0 <= i < |tasks|
    ensures UniqueIds(tasks[..i] + tasks[i + 1..])
  {
    var r := tasks[..i] + tasks[i + 1..];
    forall p, q | 0 <= p < q < |r| ensures r[p].id != r[q].id {
      var p' := if p < i then p else p + 1;
      var q' := if q < i then q else q + 1;
      assert r[p] == tasks[p'] && r[q] == tasks[q'];
    }
  }

  /**
   * With unique ids, deleting a present id removes exactly its one slot;
   * deleting an absent id changes nothing. Either way the ids stay unique.
   */
  lemma WithoutTaskUnique(tasks: seq<Task>, id: string)
    requires UniqueIds(tasks)
    ensures var i := FindTask(tasks, id);
      WithoutTask(tasks, id) == if i < 0 then tasks else tasks[..i] + tasks[i + 1..]
    ensures UniqueIds(WithoutTask(tasks, id))
  {
    var i := FindTask(tasks, id);
    if i < 0 {
      WithoutTaskAbsent(tasks, id);
    } else {
      var pre, post := tasks[..i], tasks[i + 1..];
      assert tasks == pre + ([tasks[i]] + post);
      forall j | 0 <= j < |post| ensures post[j].id != id {
        assert post[j] == tasks[i + 1 + j];
      }
      calc {
        WithoutTask(tasks, id);
        WithoutTask(pre + ([tasks[i]] + post), id);
        { WithoutTaskAppend(pre, [tasks[i]] + post, id); }
        WithoutTask(pre, id) + WithoutTask([tasks[i]] + post, id);
        { WithoutTaskAppend([tasks[i]], post, id); }
        WithoutTask(pre, id) + (WithoutTask([tasks[i]], id) + WithoutTask(post, id));
        { WithoutTaskAbsent(pre, id); WithoutTaskAbsent(post, id);
          assert WithoutTask([tasks[i]], id) == []; }
        pre + ([] + post);
        { assert [] + post == post; }
        pre + post;
      }
      UniqueWithoutSlot(tasks, i);
    }
  }

  /**
   * The list after saving `task` (saveTask): a task with the same id is
   * replaced in its slot, otherwise the task is appended.
   */
  function Upsert(tasks: seq<Task>, task: Task): (r: seq<Task>)
    ensures var i := FindTask(tasks, task.id);
      && (0 <= i ==> |r| == |tasks| && r[i] == task && forall j :: 0 <= j < |tasks| && j != i ==> r[j] == tasks[j])
      && (i < 0 ==> |r| == |tasks| + 1 && r[|tasks|] == task && r[..|tasks|] == tasks)
    ensures UniqueIds(tasks) ==> UniqueIds(r)
  {
    var i := FindTask(tasks, task.id);
    if i >= 0 then tasks[i := task] else tasks + [task]
  }

  /** After saving, looking the id up finds the saved task. */
  lemma UpsertFinds(tasks: seq<Task>, task: Task)
    ensures var r := Upsert(tasks, task);
      var k := FindTask(r, task.id);
      0 <= k && r[k] == task
  {
    var i := FindTask(tasks, task.id);
    var r := Upsert(tasks, task);
    var k := FindTask(r, task.id);
    if i >= 0 {
      assert r[i].id == task.id;
      assert k == i;
    } else {
      assert r[|tasks|].id == task.id;
      assert k == |tasks|;
    }
  }

  /** Saving the same task twice is the same as saving it once. */
  lemma UpsertIdempotent(tasks: seq<Task>, task: Task)
    ensures Upsert(Upsert(tasks, task), task) == Upsert(tasks, task)
  {
    var r := Upsert(tasks, task);
    UpsertFinds(tasks, task);
    var k := FindTask(r, task.id);
    assert r[k := task] == r;
  }

  /** With unique ids, deleting a task just saved undoes the save. */
  lemma DeleteAfterUpsert(tasks: seq<Task>, task: Task)
    requires UniqueIds(tasks)
    ensures WithoutTask(Upsert(tasks, task), task.id) == WithoutTask(tasks, task.id)
  {
    var i := FindTask(tasks, task.id);
    var r := Upsert(tasks, task);
    WithoutTaskUnique(tasks, task.id);
    if i >= 0 {
      assert FindTask(r, task.id) == i by {
        assert r[i].id == task.id;
      }
      WithoutTaskUnique(r, task.id);
      assert r[..i] == tasks[..i] && r[i + 1..] == tasks[i + 1..];
    } else {
      WithoutTaskAppend(tasks, [task], task.id);
      assert WithoutTask([task], task.id) == [];
      assert WithoutTask(tasks, task.id) + [] == WithoutTask(tasks, task.id);
    }
  }

  /** The distinct categories of the completed tasks. */
  function CompletedCategories(tasks: seq<Task>): (r: set<Category>)
    ensures forall c :: c in r <==> exists i :: 0 <= i < |tasks| && tasks[i].completed && tasks[i].category == c
    decreases |tasks|
  {
    if |tasks| == 0 then {}
    else
      var rest := CompletedCategories(tasks[..|tasks| - 1]);
      var last := tasks[|tasks| - 1];
      assert forall i :: 0 <= i < |tasks| - 1 ==> tasks[..|tasks| - 1][i] == tasks[i];
      if last.completed then rest + {last.category} else rest
  }

  const AllCategories: set<Category> := {Work, Personal, Health, Finance, Education, Other}

  lemma AllCategoriesCount()
    ensures |AllCategories| == 6
    ensures forall c: Category :: c in AllCategories
  {
    assert AllCategories == {Work} + {Personal} + {Health} + {Finance} + {Education} + {Other};
    forall c: Category ensures c in AllCategories {
      match c {
        case Work => case Personal => case Health =>
        case Finance => case Education => case Other =>
      }
    }
  }

  /**
   * At most six categories can be collected, and six are collected exactly when
   * every category has a completed task.
   */
  lemma CategoryCount(tasks: seq<Task>)
    ensures |CompletedCategories(tasks)| <= |AllCategories| == 6
    ensures |CompletedCategories(tasks)| == 6 <==> forall c: Category :: c in CompletedCategories(tasks)
  {
    var r := CompletedCategories(tasks);
    AllCategoriesCount();
    assert r <= AllCategories by {
      forall c | c in r ensures c in AllCategories { }
    }
    assert |AllCategories| == |r| + |AllCategories - r|;
    if |r| == 6 {
      assert AllCategories - r == {};
      forall c: Category ensures c in r {
        assert c in AllCategories;
      }
    }
    if forall c: Category :: c in r {
      assert r == AllCategories;
    }
  }
}
