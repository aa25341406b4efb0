/**
 * The in-memory store of task log parts and its pages. Page arithmetic is that of 64-bit
 * machine integers: an operation that leaves their range is an Overflow.
 */
module LogStore {
  import opened Wrappers
  import opened TaskLog

  const I64_LIMIT := 0x8000_0000_0000_0000
  const USIZE_LIMIT := 0x1_0000_0000_0000_0000

  type I64 = x: int | -0x8000_0000_0000_0000 <= x < 0x8000_0000_0000_0000

  predicate InI64(x: int) {
    -I64_LIMIT <= x < I64_LIMIT
  }

  /** A signed number read as an unsigned one of the same width. */
  function AsUsize(x: I64): (u: nat)
    ensures u < USIZE_LIMIT
  {
    if x < 0 then x + USIZE_LIMIT else x
  }

  datatype Page<T> = Page(items: seq<T>, number: int, size: int, totalPages: int, totalItems: int)

  datatype Outcome<+T> = Returned(value: T) | Overflow

  function Min(a: nat, b: nat): nat {
    if a < b then a else b
  }

  /** One page of a list. A list in memory is never longer than the largest signed number. */
  function Paginate<T>(items: seq<T>, page: I64, size: I64): Outcome<Page<T>>
    requires |items| < I64_LIMIT
  {
    var n := |items|;
    if size > 0 && !InI64(n + size) then Overflow else
    var totalPages := if size > 0 then (n + size - 1) / size else 0;
    if !InI64(page - 1) || !InI64((page - 1) * size) then Overflow else
    var start := AsUsize((page - 1) * size);
    if start + AsUsize(size) >= USIZE_LIMIT then Overflow else
    var end := Min(start + AsUsize(size), n);
    var pageItems := if start < n && start <= end then items[start..end] else [];
    Returned(Page(pageItems, page, size, totalPages, n))
  }

  /** The slice never starts after its end, so taking it cannot fail. */
  lemma SliceIsInBounds(n: nat, page: I64, size: I64)
    requires InI64((page - 1) * size)
    requires var start := AsUsize((page - 1) * size); start < n && start + AsUsize(size) < USIZE_LIMIT
    ensures var start := AsUsize((page - 1) * size); start <= Min(start + AsUsize(size), n)
  {
  }

  /** Without a positive size no pages are reported, yet the first page has everything if the size is negative. */
  lemma FirstPageOfNoSize<T>(items: seq<T>, size: I64)
    requires |items| < I64_LIMIT && size <= 0
    ensures Paginate(items, 1, size) ==
            Returned(Page(if size < 0 then items else [], 1, size, 0, |items|))
  {
    assert items[0..|items|] == items;
  }

  // ---- The store ----

  datatype Error = InvalidId(message: string)

  type Logs = map<string, seq<TaskLogPart>>

  function LogOf(logs: Logs, taskId: string): seq<TaskLogPart> {
    if taskId in logs then logs[taskId] else []
  }

  /** The task a part belongs to; empty when it names none. */
  function TaskOf(part: TaskLogPart): string {
    if part.taskId.Some? then part.taskId.value else ""
  }

  /** The part carries a task id, and not an empty one. */
  predicate NamesTask(part: TaskLogPart) {
    part.taskId != None && part.taskId != Some("")
  }

  function Appended(logs: Logs, part: TaskLogPart): Logs {
    if TaskOf(part) == "" then logs else logs[TaskOf(part) := LogOf(logs, TaskOf(part)) + [part]]
  }

  class InMemoryLogStore {
    var taskLogs: Logs

    constructor ()
      ensures taskLogs == map[]
    {
      taskLogs := map[];
    }

    method CreateTaskLogPart(part: TaskLogPart) returns (r: Result<(), Error>)
      modifies this
      ensures taskLogs == Appended(old(taskLogs), part)
      ensures r == if NamesTask(part) then Ok(()) else Err(InvalidId("task log part has no task_id"))
      ensures NamesTask(part) ==>
                var id := part.taskId.value;
                && LogOf(taskLogs, id) == LogOf(old(taskLogs), id) + [part]
                && forall other | other != id :: LogOf(taskLogs, other) == LogOf(old(taskLogs), other)
      ensures !NamesTask(part) ==> taskLogs == old(taskLogs)
    {
      var id := TaskOf(part);
      if id == "" {
        return Err(InvalidId("task log part has no task_id"));
      }
      if id !in taskLogs {
        taskLogs := taskLogs[id := []];
      }
      taskLogs := taskLogs[id := taskLogs[id] + [part]];
      return Ok(());
    }

    method GetTaskLogParts(taskId: string, page: I64, size: I64) returns (r: Outcome<Page<TaskLogPart>>)
      requires |LogOf(taskLogs, taskId)| < I64_LIMIT
      ensures r == Paginate(LogOf(taskLogs, taskId), page, size)
    {
      var parts := LogOf(taskLogs, taskId);
      r := Paginate(parts, page, size);
    }
  }

  // ---- Runs ----

  /** The logs after any run of create calls on a new store. */
  function LogsAfter(calls: seq<TaskLogPart>): Logs {
    if calls == [] then map[] else Appended(LogsAfter(calls[..|calls| - 1]), calls[|calls| - 1])
  }

  /** The parts of a run whose task id is the given one, in order. */
  function PartsFor(calls: seq<TaskLogPart>, taskId: string): seq<TaskLogPart> {
    if calls == [] then []
    else
      var earlier := PartsFor(calls[..|calls| - 1], taskId);
      if calls[|calls| - 1].taskId == Some(taskId) then earlier + [calls[|calls| - 1]] else earlier
  }

  /** Nothing is ever filed under the empty id; under any other, the parts that carry it. */
  lemma {:induction false} StoreKeepsParts(calls: seq<TaskLogPart>, taskId: string)
    ensures LogOf(LogsAfter(calls), taskId) == if taskId == "" then [] else PartsFor(calls, taskId)
  {
    if calls != [] {
      StoreKeepsParts(calls[..|calls| - 1], taskId);
    }
  }

  // ---- Pages ----

  /**
   * When page arithmetic overflows. Positive sizes: page 0 always, other pages only near the ends
   * of the range. Size 0: only the least page. Negative sizes: every page but the first.
   */
  lemma OverflowsExactly<T>(items: seq<T>, page: I64, size: I64)
    requires |items| < I64_LIMIT
    ensures Paginate(items, page, size).Overflow? <==>
            if size > 0 then
              || |items| + size >= I64_LIMIT
              || page == 0 || page == -I64_LIMIT
              || !InI64((page - 1) * size)
            else if size == 0 then page == -I64_LIMIT
            else page != 1
  {
    if size < 0 {
      NegativeOffset(page, size);
    } else if page < 0 {
      Times(1 - page, 2, size);
      assert (page - 1) * size == -((1 - page) * size);
    } else if page == 0 {
      assert (page - 1) * size == -size;
    } else {
      Times(page - 1, 0, size);
    }
  }

  /** With a negative size, where a page starts: before the list, or at least one size behind its start. */
  lemma NegativeOffset(page: int, size: int)
    requires size < 0
    ensures page > 1 ==> (page - 1) * size < 0
    ensures page < 1 ==> (page - 1) * size >= -size
  {
    if page > 1 {
      Times(page - 1, 1, -size);
    } else if page < 1 {
      Times(1 - page, 1, -size);
    }
    assert (page - 1) * size == (1 - page) * -size == -((page - 1) * -size);
  }

  lemma Times(a: int, b: int, c: int)
    requires a >= b && c >= 0
    ensures a * c >= b * c
  {
  }

  /** The last page starts before the end of the list, which ends within it. */
  lemma PageCount(n: nat, size: nat, pages: nat)
    requires size > 0 && pages == (n + size - 1) / size
    ensures n <= pages * size
    ensures pages > 0 ==> (pages - 1) * size < n
  {
    var r := (n + size - 1) % size;
    assert n + size - 1 == pages * size + r;
    assert (pages - 1) * size == pages * size - size;
  }

  /** Page `page` holds the items from `(page - 1) * size` on, up to `size` of them. */
  lemma PageHolds<T>(items: seq<T>, page: I64, size: I64)
    requires size > 0 && page > 0 && |items| + size < I64_LIMIT && InI64((page - 1) * size)
    ensures var r := Paginate(items, page, size);
            var n, start := |items|, (page - 1) * size;
            && r.Returned? && 0 <= start
            && r.value.items == items[Min(start, n)..Min(start + size, n)]
            && r.value.number == page && r.value.size == size
            && r.value.totalItems == n && r.value.totalPages == (n + size - 1) / size
  {
    Times(page - 1, 0, size);
  }

  /**
   * Every page that does not overflow. It carries the numbers it was asked for with; the page count
   * is the least that holds all items, or 0 without a positive size; the items are those of the
   * page, all of them for the first page of a negative size, and none otherwise.
   */
  lemma PaginateExactly<T>(items: seq<T>, page: I64, size: I64)
    requires |items| < I64_LIMIT && Paginate(items, page, size).Returned?
    ensures var r := Paginate(items, page, size).value;
            var n, start := |items|, (page - 1) * size;
            && r.number == page && r.size == size && r.totalItems == n
            && (if size > 0 then
                  && 0 <= r.totalPages && n <= r.totalPages * size
                  && (r.totalPages > 0 ==> (r.totalPages - 1) * size < n)
                else r.totalPages == 0)
            && r.items == if size > 0 && page > 0 && 0 <= start < n then items[start..Min(start + size, n)]
                          else if size < 0 then items
                          else []
  {
    OverflowsExactly(items, page, size);
    if size > 0 {
      PageCount(|items|, size, (|items| + size - 1) / size);
      if page > 0 {
        PageHolds(items, page, size);
      } else {
        BeforeFirst(page, size);
      }
    } else if size < 0 {
      FirstPageOfNoSize(items, size);
    }
  }

  /** A page before the first starts, read as unsigned, far behind any list. */
  lemma BeforeFirst(page: I64, size: I64)
    requires size > 0 && page <= 0 && InI64((page - 1) * size)
    ensures AsUsize((page - 1) * size) >= I64_LIMIT
  {
    Times(1 - page, 1, size);
    assert (page - 1) * size == -((1 - page) * size);
  }

  /** The items of pages 1 to `k`. */
  function FirstPages<T>(items: seq<T>, size: I64, k: nat): seq<T>
    requires |items| < I64_LIMIT && k < I64_LIMIT
  {
    if k == 0 then []
    else
      var r := Paginate(items, k, size);
      FirstPages(items, size, k - 1) + if r.Returned? then r.value.items else []
  }

  lemma {:induction false} FirstPagesHold<T>(items: seq<T>, size: I64, k: nat, pages: nat)
    requires size > 0 && |items| + size < I64_LIMIT && pages == (|items| + size - 1) / size && k <= pages < I64_LIMIT
    ensures FirstPages(items, size, k) == items[..Min(k * size, |items|)]
  {
    hide Paginate;
    if k > 0 {
      PageInRange(|items|, k, size, pages);
      FirstPagesHold(items, size, k - 1, pages);
      PageHolds(items, k, size);
      assert k * size == (k - 1) * size + size;
    }
  }

  /** A page up to the last starts inside the list. */
  lemma PageInRange(n: nat, k: nat, size: nat, pages: nat)
    requires size > 0 && 0 < k <= pages == (n + size - 1) / size
    ensures 0 <= (k - 1) * size < n
    ensures k < pages ==> k * size < n
  {
    PageCount(n, size, pages);
    Times(pages - 1, k - 1, size);
    if k < pages {
      Times(pages - 1, k, size);
    }
  }

  lemma FewPages(n: nat, size: nat)
    requires size > 0
    ensures (n + size - 1) / size <= n
  {
    var pages := (n + size - 1) / size;
    PageCount(n, size, pages);
    if pages > n {
      Times(pages - 1, n, size);
      Times(size, 1, n);
    }
  }

  lemma PageWithin<T>(items: seq<T>, size: I64, k: I64, pages: nat)
    requires size > 0 && |items| + size < I64_LIMIT && pages == (|items| + size - 1) / size && 1 <= k <= pages
    ensures var r := Paginate(items, k, size);
            && r.Returned? && r.value.totalPages == pages
            && (k < pages ==> |r.value.items| == size) && |r.value.items| > 0
  {
    hide Paginate;
    PageInRange(|items|, k, size, pages);
    PageHolds(items, k, size);
    assert k * size == (k - 1) * size + size;
  }

  lemma PageBeyond<T>(items: seq<T>, size: I64, k: I64, pages: nat)
    requires size > 0 && |items| + size < I64_LIMIT && pages == (|items| + size - 1) / size
    requires pages < k && InI64((k - 1) * size)
    ensures Paginate(items, k, size) == Returned(Page([], k, size, pages, |items|))
  {
    hide Paginate;
    PageCount(|items|, size, pages);
    Times(k - 1, pages, size);
    PageHolds(items, k, size);
  }

  /**
   * Paging loses nothing: pages 1 to the reported number of pages, one after another, are the
   * whole list; all but the last are full, the last is not empty, and pages beyond it are empty.
   */
  lemma PagesLoseNothing<T>(items: seq<T>, size: I64)
    requires size > 0 && |items| + size < I64_LIMIT
    ensures var pages := (|items| + size - 1) / size;
            && pages <= |items|
            && FirstPages(items, size, pages) == items
            && (forall k: I64 :: 1 <= k <= pages ==>
                  var r := Paginate(items, k, size);
                  && r.Returned? && r.value.totalPages == pages
                  && (k < pages ==> |r.value.items| == size) && |r.value.items| > 0)
            && (forall k: I64 :: pages < k && InI64((k - 1) * size) ==>
                  Paginate(items, k, size) == Returned(Page([], k, size, pages, |items|)))
  {
    hide Paginate;
    var n := |items|;
    var pages := (n + size - 1) / size;
    FewPages(n, size);
    FirstPagesHold(items, size, pages, pages);
    PageCount(n, size, pages);
    forall k: I64 | 1 <= k <= pages
      ensures var r := Paginate(items, k, size);
              && r.Returned? && r.value.totalPages == pages
              && (k < pages ==> |r.value.items| == size) && |r.value.items| > 0
    {
      PageWithin(items, size, k, pages);
    }
    forall k: I64 | pages < k && InI64((k - 1) * size)
      ensures Paginate(items, k, size) == Returned(Page([], k, size, pages, |items|))
    {
      PageBeyond(items, size, k, pages);
    }
  }

  /**
   * After any run of create calls, reading a task's log page by page gives exactly the parts
   * appended for that task, in order.
   */
  lemma LogPagesAreTheCalls(calls: seq<TaskLogPart>, taskId: string, size: I64)
    requires taskId != "" && size > 0 && |PartsFor(calls, taskId)| + size < I64_LIMIT
    ensures var log := LogOf(LogsAfter(calls), taskId);
            var pages := (|log| + size - 1) / size;
            |log| + size < I64_LIMIT && pages <= |log| && FirstPages(log, size, pages) == PartsFor(calls, taskId)
  {
    StoreKeepsParts(calls, taskId);
    PagesLoseNothing(PartsFor(calls, taskId), size);
  }
}
