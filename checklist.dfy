/** The checklist engine of a task: the per-item completion rule, the
    index-by-index merge of an incoming checklist, and the roll-up of item
    completion into a percentage and a status. Everything here is pure; the
    task record that stores the result is in module Tasks. */
module Checklist {
  import opened Common

  datatype Status = Pending | InProgress | Completed
  {
    /** The value stored in the task document. */
    function Name(): string
    {
      match this
      case Pending => "Pending"
      case InProgress => "In-Progress"
      case Completed => "Completed"
    }
  }

  datatype Priority = Low | Medium | High
  {
    function Name(): string
    {
      match this
      case Low => "Low"
      case Medium => "Medium"
      case High => "High"
    }
  }

  /** One checkpoint of a task's todo list. */
  datatype Item = Item(text: string, completed: bool, completedBy: Option<UserId>)

  const AlreadyCompletedMsg := "This checkpoint is already completed by another member."
  const CannotUncheckMsg := "You cannot uncheck this checkpoint."

  /** Whether the per-item rule refuses `actor`'s request `want` on `existing`:
      a non-admin who is not the recorded completer asks to complete an item
      someone else already claimed, or to uncheck a completed item. */
  predicate Refused(existing: Item, want: bool, actor: Actor)
  {
    && !actor.IsAdmin()
    && existing.completedBy != Some(actor.id)
    && if want then !existing.completed && existing.completedBy.Some?
       else existing.completed
  }

  /** One iteration of the checklist loop: the new value of the existing item,
      or the 403 the handler answers with. */
  function ItemStep(existing: Item, want: bool, actor: Actor): (r: Result<Item>)
    ensures r.Fail? <==> Refused(existing, want, actor)
    ensures r.Fail? ==> r.error.Forbidden?
    ensures r.Fail? && want ==> r.error.msg == AlreadyCompletedMsg
    ensures r.Fail? && !want ==> r.error.msg == CannotUncheckMsg
    // the text is never touched
    ensures r.Ok? ==> r.value.text == existing.text
    // a request for the state the item is already in changes nothing
    ensures want == existing.completed ==> r == Ok(existing)
    // completing an unclaimed item claims it for the actor
    ensures r.Ok? && r.value.completed && !existing.completed ==> r.value.completedBy == Some(actor.id)
    // unchecking always clears the completer too
    ensures r.Ok? && !r.value.completed && existing.completed ==> r.value.completedBy.None?
    // any change moves the item to the requested state
    ensures r.Ok? && r.value != existing ==> r.value.completed == want
    // a permitted completion of an unclaimed item takes effect
    ensures want && !existing.completed && existing.completedBy.None? ==>
              r == Ok(existing.(completed := true, completedBy := Some(actor.id)))
    // completing an open item that still names a completer is a silent no-op when permitted
    ensures want && !existing.completed && existing.completedBy.Some? && !Refused(existing, want, actor) ==>
              r == Ok(existing)
    // a permitted uncheck takes effect and clears the completer
    ensures !want && existing.completed && !Refused(existing, want, actor) ==>
              r == Ok(existing.(completed := false, completedBy := None))
  {
    if want && !existing.completed then
      if existing.completedBy.None? then
        Ok(existing.(completed := true, completedBy := Some(actor.id)))
      else if existing.completedBy.value != actor.id && !actor.IsAdmin() then
        Fail(Forbidden(AlreadyCompletedMsg))
      else
        Ok(existing)
    else if !want && existing.completed then
      if existing.completedBy.Some? && existing.completedBy.value == actor.id then
        Ok(existing.(completed := false, completedBy := None))
      else if !actor.IsAdmin() then
        Fail(Forbidden(CannotUncheckMsg))
      else
        Ok(existing.(completed := false, completedBy := None))
    else
      Ok(existing)
  }

  /** The whole checklist loop as one value: each existing item paired with the
      incoming flag at the same index, surplus incoming flags ignored, and the
      first refusal (by index) aborting the request. */
  function Merge(items: seq<Item>, incoming: seq<bool>, actor: Actor): (r: Result<seq<Item>>)
    ensures r.Ok? ==> |r.value| == |items|
    ensures r.Ok? ==> forall j :: 0 <= j < |items| ==> r.value[j].text == items[j].text
    ensures r.Ok? ==> forall j :: |incoming| <= j < |items| ==> r.value[j] == items[j]
    ensures r.Fail? ==> r.error.Forbidden? && !actor.IsAdmin()
    decreases |items|
  {
    if items == [] || incoming == [] then Ok(items)
    else
      match ItemStep(items[0], incoming[0], actor)
      case Fail(e) => Fail(e)
      case Ok(first) =>
        match Merge(items[1..], incoming[1..], actor)
        case Fail(e) => Fail(e)
        case Ok(rest) => Ok([first] + rest)
  }

  /** The number of index pairs the loop actually looks at. */
  function Paired(items: seq<Item>, incoming: seq<bool>): nat
  {
    if |items| < |incoming| then |items| else |incoming|
  }

  /** Merge succeeds exactly when no paired index is refused, and then every
      item is the per-item rule's answer for its own index. */
  lemma {:induction false} MergePointwise(items: seq<Item>, incoming: seq<bool>, actor: Actor)
    ensures Merge(items, incoming, actor).Ok? <==>
            forall j :: 0 <= j < Paired(items, incoming) ==> ItemStep(items[j], incoming[j], actor).Ok?
    ensures Merge(items, incoming, actor).Ok? ==>
            forall j :: 0 <= j < Paired(items, incoming) ==>
              Merge(items, incoming, actor).value[j] == ItemStep(items[j], incoming[j], actor).value
    decreases |items|
  {
    if items != [] && incoming != [] {
      MergePointwise(items[1..], incoming[1..], actor);
      var r := Merge(items, incoming, actor);
      var step := ItemStep(items[0], incoming[0], actor);
      if step.Ok? && r.Fail? {
        var j' :| 0 <= j' < Paired(items[1..], incoming[1..]) && ItemStep(items[1..][j'], incoming[1..][j'], actor).Fail?;
        assert ItemStep(items[j' + 1], incoming[j' + 1], actor).Fail?;
      }
      if r.Ok? {
        forall j | 0 <= j < Paired(items, incoming)
          ensures r.value[j] == ItemStep(items[j], incoming[j], actor).value
        {
          if j > 0 {
            assert items[j] == items[1..][j - 1] && incoming[j] == incoming[1..][j - 1];
          }
        }
      }
      if r.Fail? {
        if step.Ok? {
          var j' :| 0 <= j' < Paired(items[1..], incoming[1..]) && ItemStep(items[1..][j'], incoming[1..][j'], actor).Fail?;
          assert ItemStep(items[j' + 1], incoming[j' + 1], actor).Fail?;
        }
      } else {
        forall j | 0 <= j < Paired(items, incoming) ensures ItemStep(items[j], incoming[j], actor).Ok? {
          if j > 0 {
            assert items[j] == items[1..][j - 1] && incoming[j] == incoming[1..][j - 1];
          }
        }
      }
    }
  }

  /** A refusal at index `i`, with every earlier paired index accepted, is the
      answer of the whole request: the loop returns at the first refusal. */
  lemma {:induction false} MergeFirstRefusal(items: seq<Item>, incoming: seq<bool>, actor: Actor, i: nat)
    requires i < |items| && i < |incoming|
    requires forall j :: 0 <= j < i ==> ItemStep(items[j], incoming[j], actor).Ok?
    requires ItemStep(items[i], incoming[i], actor).Fail?
    ensures Merge(items, incoming, actor) == Fail(ItemStep(items[i], incoming[i], actor).error)
    decreases i
  {
    if i > 0 {
      assert ItemStep(items[0], incoming[0], actor).Ok?;
      forall j | 0 <= j < i - 1 ensures ItemStep(items[1..][j], incoming[1..][j], actor).Ok? {
        assert items[1..][j] == items[j + 1] && incoming[1..][j] == incoming[j + 1];
      }
      MergeFirstRefusal(items[1..], incoming[1..], actor, i - 1);
    }
  }

  /** The completion flags of a checklist, as a client resubmitting it sends them. */
  function Flags(items: seq<Item>): (f: seq<bool>)
    ensures |f| == |items|
    ensures forall j :: 0 <= j < |items| ==> f[j] == items[j].completed
  {
    seq(|items|, j requires 0 <= j < |items| => items[j].completed)
  }

  /** Resubmitting the current completion flags changes no item and is never refused. */
  lemma {:induction false} ResubmitIsNoOp(items: seq<Item>, actor: Actor)
    ensures Merge(items, Flags(items), actor) == Ok(items)
    decreases |items|
  {
    if items != [] {
      assert Flags(items)[1..] == Flags(items[1..]);
      ResubmitIsNoOp(items[1..], actor);
      assert [items[0]] + items[1..] == items;
    }
  }

  /** Submitting the same checklist twice: the second submission is accepted
      and changes nothing more. */
  lemma {:induction false} MergeIdempotent(items: seq<Item>, incoming: seq<bool>, actor: Actor)
    requires Merge(items, incoming, actor).Ok?
    ensures Merge(Merge(items, incoming, actor).value, incoming, actor) == Merge(items, incoming, actor)
    decreases |items|
  {
    if items != [] && incoming != [] {
      MergeIdempotent(items[1..], incoming[1..], actor);
      var first := ItemStep(items[0], incoming[0], actor).value;
      var rest := Merge(items[1..], incoming[1..], actor).value;
      assert ItemStep(first, incoming[0], actor) == Ok(first);
      assert ([first] + rest)[1..] == rest;
    }
  }

  /** A quirk of the rule: an item that is unchecked but still records the actor
      as its completer (a checklist supplied through a field update can hold
      one) stays unchecked when that actor asks to complete it, with no error. */
  lemma StaleOwnerCannotComplete(text: string, actor: Actor)
    ensures var stale := Item(text, false, Some(actor.id));
            Merge([stale], [true], actor) == Ok([stale])
  {
    var stale := Item(text, false, Some(actor.id));
    assert Merge([stale][1..], [true][1..], actor) == Ok([]);
    assert [stale] + [] == [stale];
  }

  /** How many items are checked (the `completedTodoCount` of a listing). */
  function CountCompleted(items: seq<Item>): (c: nat)
    ensures c <= |items|
  {
    if items == [] then 0
    else (if items[0].completed then 1 else 0) + CountCompleted(items[1..])
  }

  /** `Math.round(c / n * 100)` computed exactly: the nearest integer with
      halves rounded up. */
  function RoundPercent(c: nat, n: nat): (p: nat)
    requires 0 < n && c <= n
    ensures p <= 100
    ensures 200 * c - n < 2 * n * p <= 200 * c + n
  {
    RoundBounds(c, n);
    (200 * c + n) / (2 * n)
  }

  lemma RoundBounds(c: nat, n: nat)
    requires 0 < n && c <= n
    ensures (200 * c + n) / (2 * n) <= 100
    ensures 200 * c - n < 2 * n * ((200 * c + n) / (2 * n)) <= 200 * c + n
  {
    var a, d := 200 * c + n, 2 * n;
    var q := a / d;
    assert d * q <= a < d * q + d;
    if q > 100 {
      MulAtLeast(d, q, 101);
      assert false;
    }
  }

  lemma MulAtLeast(d: nat, q: nat, k: nat)
    requires q >= k
    ensures d * q >= d * k
  {
  }

  /** The progress of a checklist: rounded percentage of checked items, 0 when empty. */
  function Progress(items: seq<Item>): (p: nat)
    ensures p <= 100
  {
    if |items| > 0 then RoundPercent(CountCompleted(items), |items|) else 0
  }

  /** The status the checklist handler derives from a progress value. */
  function StatusFor(progress: int): Status
  {
    if progress == 100 then Completed
    else if progress > 0 then InProgress
    else Pending
  }

  /** Progress is 100 exactly when at least 199 of every 200 items are checked
      (so a long list reaches 100 with an item still open), and 0 exactly when
      fewer than one in 200 is. */
  lemma ProgressBounds(items: seq<Item>)
    requires |items| > 0
    ensures Progress(items) == 100 <==> 200 * CountCompleted(items) >= 199 * |items|
    ensures Progress(items) == 0 <==> 200 * CountCompleted(items) < |items|
  {
    RoundExtremes(CountCompleted(items), |items|, Progress(items));
  }

  lemma RoundExtremes(c: nat, n: nat, p: nat)
    requires 0 < n && c <= n && p <= 100
    requires 200 * c - n < 2 * n * p <= 200 * c + n
    ensures p == 100 <==> 200 * c >= 199 * n
    ensures p == 0 <==> 200 * c < n
  {
    if p <= 99 {
      MulAtLeast(2 * n, 99, p);
    }
    if p >= 1 {
      MulAtLeast(2 * n, p, 1);
    }
  }

  /** Rounding lets a task read Completed while one item is still open, once
      the list has 200 items or more. */
  lemma OpenItemCanReadCompleted(items: seq<Item>)
    requires |items| >= 200 && CountCompleted(items) == |items| - 1
    ensures StatusFor(Progress(items)) == Completed
  {
    ProgressBounds(items);
  }

  /** Rounding lets a task read Pending with a checked item, once the list
      has more than 200 items. */
  lemma CheckedItemCanReadPending(items: seq<Item>)
    requires |items| > 200 && CountCompleted(items) == 1
    ensures StatusFor(Progress(items)) == Pending
  {
    ProgressBounds(items);
  }

  /** Every item checked gives 100 and none gives 0. */
  lemma ProgressExtremes(items: seq<Item>)
    requires |items| > 0
    ensures CountCompleted(items) == |items| ==> Progress(items) == 100
    ensures CountCompleted(items) == 0 ==> Progress(items) == 0
  {
    ProgressBounds(items);
  }

  /** Status after a checklist update, stated on the items: Completed iff the
      rounded share is 100, Pending iff it rounds to 0 (an empty list included). */
  lemma StatusFromItems(items: seq<Item>)
    ensures StatusFor(Progress(items)) == Completed <==>
            |items| > 0 && 200 * CountCompleted(items) >= 199 * |items|
    ensures StatusFor(Progress(items)) == Pending <==>
            |items| == 0 || 200 * CountCompleted(items) < |items|
    ensures StatusFor(Progress(items)) == InProgress <==> 0 < Progress(items) < 100
  {
    if |items| > 0 {
      ProgressBounds(items);
    }
  }

  /** Every item checked, completers left as they were (the forced completion
      of a direct status change to Completed). */
  function CompleteAll(items: seq<Item>): (r: seq<Item>)
    ensures |r| == |items|
    ensures forall j :: 0 <= j < |items| ==> r[j] == items[j].(completed := true)
  {
    seq(|items|, j requires 0 <= j < |items| => items[j].(completed := true))
  }

  /** Every item unchecked and unclaimed (the reset on re-assignment). */
  function ResetAll(items: seq<Item>): (r: seq<Item>)
    ensures |r| == |items|
    ensures forall j :: 0 <= j < |items| ==> r[j] == items[j].(completed := false, completedBy := None)
  {
    seq(|items|, j requires 0 <= j < |items| => items[j].(completed := false, completedBy := None))
  }

  lemma {:induction false} CountAllCompleted(items: seq<Item>)
    requires forall j :: 0 <= j < |items| ==> items[j].completed
    ensures CountCompleted(items) == |items|
    decreases |items|
  {
    if items != [] {
      CountAllCompleted(items[1..]);
    }
  }

  lemma {:induction false} CountNoneCompleted(items: seq<Item>)
    requires forall j :: 0 <= j < |items| ==> !items[j].completed
    ensures CountCompleted(items) == 0
    decreases |items|
  {
    if items != [] {
      CountNoneCompleted(items[1..]);
    }
  }

  /** A forced completion makes the list's own progress 100, except for an
      empty list, whose progress stays 0 although the task records 100. */
  lemma CompleteAllProgress(items: seq<Item>)
    ensures Progress(CompleteAll(items)) == if |items| > 0 then 100 else 0
  {
    CountAllCompleted(CompleteAll(items));
    if |items| > 0 {
      ProgressExtremes(CompleteAll(items));
    }
  }

  /** After a reset no item is checked or claimed and the list's progress is 0. */
  lemma ResetAllProgress(items: seq<Item>)
    ensures CountCompleted(ResetAll(items)) == 0
    ensures Progress(ResetAll(items)) == 0
  {
    CountNoneCompleted(ResetAll(items));
  }
}
