/** The task indexes of the key-value scheduler store: one list of ids for all tasks and one for each team. */
module TaskIndex {
  import opened Wrappers
  import opened SchedulerModel

  datatype Key = Everyone | Team(teamId: string)

  /** The distinct non-empty values, in order of first appearance. */
  function Unique(values: seq<string>): (r: seq<string>)
    ensures forall x :: x in r <==> x in values && x != ""
    ensures forall i, j | 0 <= i < j < |r| :: r[i] != r[j]
  {
    if values == [] then []
    else
      var last := values[|values| - 1];
      var rest := Unique(values[..|values| - 1]);
      assert forall x :: x in values <==> x in values[..|values| - 1] || x == last;
      if last == "" || last in rest then rest else rest + [last]
  }

  function Without(values: seq<string>, id: string): (r: seq<string>)
    ensures forall x :: x in r <==> x in values && x != id
    ensures |r| <= |values| && (|r| == |values| <==> id !in values)
    ensures (forall i, j | 0 <= i < j < |values| :: values[i] != values[j])
            ==> forall i, j | 0 <= i < j < |r| :: r[i] != r[j]
  {
    if values == [] then []
    else
      var rest := Without(values[1..], id);
      assert forall x :: x in values <==> x == values[0] || x in values[1..];
      assert forall j | 0 <= j < |rest| :: rest[j] in rest && rest[j] in values[1..];
      if values[0] == id then rest else [values[0]] + rest
  }

  class PluginStateStore {
    var tasks: map<string, Task>
    var indexes: map<Key, seq<string>>

    constructor ()
      ensures tasks == map[] && indexes == map[]
    {
      tasks := map[];
      indexes := map[];
    }

    /** Afterwards one list holds the id as well, unless it is empty, and no empty or repeated one. */
    method AddToIndex(key: Key, id: string)
      modifies this`indexes
      ensures indexes == WithAdded(old(indexes), key, id)
      ensures Distinct(Listed(indexes, key))
      ensures forall x :: x in Listed(indexes, key) <==> x != "" && (x in Listed(old(indexes), key) || x == id)
      ensures forall other | other != key :: Listed(indexes, other) == Listed(old(indexes), other)
    {
      var current := if key in indexes then indexes[key] else [];
      indexes := indexes[key := Unique(current + [id])];
    }

    /** Afterwards one list holds the same ids but the given one; it is deleted rather than left empty. */
    method RemoveFromIndex(key: Key, id: string)
      modifies this`indexes
      ensures indexes == WithRemoved(old(indexes), key, id)
      ensures forall x | x != "" :: x in Listed(indexes, key) <==> x in Listed(old(indexes), key) && x != id
      ensures forall other | other != key :: Listed(indexes, other) == Listed(old(indexes), other)
      ensures key in indexes && key in old(indexes) && indexes[key] != old(indexes)[key] ==> indexes[key] != []
    {
      var current := Unique(if key in indexes then indexes[key] else []);
      var next := Without(current, id);
      if |next| == |current| {
        return;
      }
      if |next| == 0 {
        indexes := indexes - {key};
        return;
      }
      indexes := indexes[key := next];
    }

    /** Saves a task and keeps the indexes exact. */
    method SaveTask(task: Task)
      requires Exact(tasks, indexes)
      modifies this
      ensures tasks == old(tasks)[task.id := task]
      ensures indexes == SavedIndexes(
                old(indexes), task, if task.id in old(tasks) then Some(old(tasks)[task.id]) else None)
      ensures Exact(tasks, indexes)
    {
      hide WithAdded, WithRemoved, Exact, Unique;
      ghost var was, had := tasks, indexes;
      var current := if task.id in tasks then Some(tasks[task.id]) else None;
      tasks := tasks[task.id := task];
      var team := Team(task.destination.teamId);
      if task.status == Deleted {
        RemoveFromIndex(Everyone, task.id);
        RemoveFromIndex(team, task.id);
      } else {
        AddToIndex(Everyone, task.id);
        AddToIndex(team, task.id);
      }
      if current.Some? && current.value.destination.teamId != task.destination.teamId {
        RemoveFromIndex(Team(current.value.destination.teamId), task.id);
      }
      SavedStaysExact(was, had, task);
    }
  }

  function Listed(indexes: map<Key, seq<string>>, key: Key): seq<string> {
    if key in indexes then indexes[key] else []
  }

  function WithAdded(indexes: map<Key, seq<string>>, key: Key, id: string): map<Key, seq<string>> {
    indexes[key := Unique(Listed(indexes, key) + [id])]
  }

  function WithRemoved(indexes: map<Key, seq<string>>, key: Key, id: string): map<Key, seq<string>> {
    var current := Unique(Listed(indexes, key));
    var next := Without(current, id);
    if |next| == |current| then indexes else if |next| == 0 then indexes - {key} else indexes[key := next]
  }

  /** The indexes after a save that replaces `current`. */
  function SavedIndexes(indexes: map<Key, seq<string>>, task: Task, current: Option<Task>): map<Key, seq<string>> {
    var team := Team(task.destination.teamId);
    var updated :=
      if task.status == Deleted then WithRemoved(WithRemoved(indexes, Everyone, task.id), team, task.id)
      else WithAdded(WithAdded(indexes, Everyone, task.id), team, task.id);
    if current.Some? && current.value.destination.teamId != task.destination.teamId
    then WithRemoved(updated, Team(current.value.destination.teamId), task.id)
    else updated
  }

  predicate BelongsTo(task: Task, key: Key) {
    task.status != Deleted && task.id != "" && (key == Everyone || key == Team(task.destination.teamId))
  }

  ghost predicate Distinct(values: seq<string>) {
    forall i, j | 0 <= i < j < |values| :: values[i] != values[j]
  }

  /** Every index lists, without repetition, exactly the ids of its tasks that are not deleted. */
  ghost predicate Exact(tasks: map<string, Task>, indexes: map<Key, seq<string>>) {
    && KeysMatch(tasks)
    && forall key: Key ::
         Distinct(Listed(indexes, key))
         && forall id :: id in Listed(indexes, key) <==> id in tasks && BelongsTo(tasks[id], key)
  }

  lemma AddedList(indexes: map<Key, seq<string>>, key: Key, id: string, other: Key)
    requires Distinct(Listed(indexes, other)) && "" !in Listed(indexes, other)
    ensures var r := Listed(WithAdded(indexes, key, id), other);
            Distinct(r) && "" !in r
            && forall x :: x in r <==> x in Listed(indexes, other) || (key == other && x == id && id != "")
  {}

  lemma RemovedList(indexes: map<Key, seq<string>>, key: Key, id: string, other: Key)
    requires Distinct(Listed(indexes, other)) && "" !in Listed(indexes, other)
    ensures var r := Listed(WithRemoved(indexes, key, id), other);
            Distinct(r) && "" !in r
            && forall x :: x in r <==> x in Listed(indexes, other) && !(key == other && x == id)
  {
    if key == other {
      var current := Unique(Listed(indexes, key));
      var next := Without(current, id);
      assert |next| == |current| ==> id !in Listed(indexes, key) || id == "";
    }
  }

  /** A save keeps every index exact, also when it deletes the task or moves it to another team. */
  lemma SavedStaysExact(tasks: map<string, Task>, indexes: map<Key, seq<string>>, task: Task)
    requires Exact(tasks, indexes)
    ensures Exact(tasks[task.id := task],
                  SavedIndexes(indexes, task, if task.id in tasks then Some(tasks[task.id]) else None))
  {
    hide Unique, Without, WithAdded, WithRemoved;
    var current := if task.id in tasks then Some(tasks[task.id]) else None;
    var after := SavedIndexes(indexes, task, current);
    var team := Team(task.destination.teamId);
    forall key: Key
      ensures Distinct(Listed(after, key))
      ensures forall id :: id in Listed(after, key) <==>
                id in tasks[task.id := task] && BelongsTo(tasks[task.id := task][id], key)
    {
      assert "" !in Listed(indexes, key);
      var updated :=
        if task.status == Deleted then WithRemoved(WithRemoved(indexes, Everyone, task.id), team, task.id)
        else WithAdded(WithAdded(indexes, Everyone, task.id), team, task.id);
      if task.status == Deleted {
        RemovedList(indexes, Everyone, task.id, key);
        RemovedList(WithRemoved(indexes, Everyone, task.id), team, task.id, key);
      } else {
        AddedList(indexes, Everyone, task.id, key);
        AddedList(WithAdded(indexes, Everyone, task.id), team, task.id, key);
      }
      if current.Some? && current.value.destination.teamId != task.destination.teamId {
        RemovedList(updated, Team(current.value.destination.teamId), task.id, key);
      }
    }
  }

  /** The rows and indexes after saving the tasks one after another, from an empty store. */
  function SaveAll(saves: seq<Task>): (map<string, Task>, map<Key, seq<string>>) {
    if saves == [] then (map[], map[])
    else
      var (tasks, indexes) := SaveAll(saves[..|saves| - 1]);
      var task := saves[|saves| - 1];
      (tasks[task.id := task],
       SavedIndexes(indexes, task, if task.id in tasks then Some(tasks[task.id]) else None))
  }

  /** After any sequence of saves the indexes are exact: the id of a task that is not deleted is
      listed for everyone and for its team, and nowhere else, precisely when the id is not empty. */
  lemma {:induction false} IndexesAreAlwaysExact(saves: seq<Task>)
    ensures var (tasks, indexes) := SaveAll(saves);
            Exact(tasks, indexes)
            && forall id, key: Key | id in tasks && tasks[id].status != Deleted ::
                 id in Listed(indexes, key) <==>
                 id != "" && (key == Everyone || key == Team(tasks[id].destination.teamId))
  {
    hide SavedIndexes;
    if saves != [] {
      IndexesAreAlwaysExact(saves[..|saves| - 1]);
      var (tasks, indexes) := SaveAll(saves[..|saves| - 1]);
      SavedStaysExact(tasks, indexes, saves[|saves| - 1]);
    }
  }

  /** A task with an empty id is stored but listed by no index. */
  lemma EmptyIdIsNeverListed(task: Task, key: Key)
    requires task.id == "" && task.status == Active
    ensures var (tasks, indexes) := SaveAll([task]); "" in tasks && "" !in Listed(indexes, key)
  {
    IndexesAreAlwaysExact([task]);
    assert [task][..0] == [];
  }
}
