/** The task record and its dictionary form, the shape each task takes in a user's task file. */
module Tasks {

  /** A task. The fields are free strings: the store itself checks none of them. */
  datatype Task = Task(name: string, priority: string, dueDate: string, category: string, status: string)

  /** A JSON object whose values are all strings. */
  type TaskDict = map<string, string>

  const NameKey := "name"
  const PriorityKey := "priority"
  const DueDateKey := "due_date"
  const CategoryKey := "category"
  const StatusKey := "status"

  const DefaultPriority := "Low"
  const DefaultCategory := "Personal"
  const Pending := "Pending"
  const Completed := "Completed"

  function TaskKeys(): set<string> {
    {NameKey, PriorityKey, DueDateKey, CategoryKey, StatusKey}
  }

  /** The constructor with its default: a new task starts out pending. */
  function NewTask(name: string, priority: string, dueDate: string, category: string): (t: Task)
    ensures t.status == Pending
    ensures t.name == name && t.priority == priority && t.dueDate == dueDate && t.category == category
  {
    Task(name, priority, dueDate, category, Pending)
  }

  /** `dict.get(key, default)`. */
  function GetOr(d: TaskDict, key: string, default: string): (v: string)
    ensures key in d ==> v == d[key]
    ensures key !in d ==> v == default
  {
    if key in d then d[key] else default
  }

  /** Writes all five fields, under their JSON key names. */
  function ToDict(t: Task): (d: TaskDict)
    ensures d.Keys == TaskKeys()
    ensures FromDict(d) == t
  {
    map[NameKey := t.name, PriorityKey := t.priority, DueDateKey := t.dueDate,
        CategoryKey := t.category, StatusKey := t.status]
  }

  /** Reads the five fields; a missing key takes its fixed default and keys beyond the five are ignored. */
  function FromDict(d: TaskDict): (t: Task)
    ensures NameKey in d ==> t.name == d[NameKey]
    ensures NameKey !in d ==> t.name == ""
    ensures PriorityKey in d ==> t.priority == d[PriorityKey]
    ensures PriorityKey !in d ==> t.priority == DefaultPriority
    ensures DueDateKey in d ==> t.dueDate == d[DueDateKey]
    ensures DueDateKey !in d ==> t.dueDate == ""
    ensures CategoryKey in d ==> t.category == d[CategoryKey]
    ensures CategoryKey !in d ==> t.category == DefaultCategory
    ensures StatusKey in d ==> t.status == d[StatusKey]
    ensures StatusKey !in d ==> t.status == Pending
  {
    Task(
      GetOr(d, NameKey, ""),
      GetOr(d, PriorityKey, DefaultPriority),
      GetOr(d, DueDateKey, ""),
      GetOr(d, CategoryKey, DefaultCategory),
      GetOr(d, StatusKey, Pending))
  }

  /** The other direction of the round trip: a dictionary holding exactly the five keys is rebuilt as it was. */
  lemma DictRoundTrip(d: TaskDict)
    requires d.Keys == TaskKeys()
    ensures ToDict(FromDict(d)) == d
  {
    var e := ToDict(FromDict(d));
    assert e.Keys == d.Keys;
    forall k | k in d
      ensures e[k] == d[k]
    {
    }
  }

  /** Only the five keys matter to the decoder: extra keys are dropped. */
  lemma FromDictIgnoresExtraKeys(d: TaskDict, extra: TaskDict)
    requires extra.Keys !! TaskKeys()
    ensures FromDict(d + extra) == FromDict(d)
  {
  }

  /** An empty object decodes to the all-defaults task. */
  lemma FromEmptyDict()
    ensures FromDict(map[]) == Task("", DefaultPriority, "", DefaultCategory, Pending)
  {
  }
}
