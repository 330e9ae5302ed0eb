/** A copy of a conversation's threads that only ever hears of changes, and what it holds. */
module Client {
  import opened Wrappers
  import opened Sequences

  type ThreadId = string

  /** An entry by its id, or a turn by the prompt it answers. */
  datatype Item = Item(id: string, body: string)

  datatype Thread = Thread(entries: seq<Item>, turns: seq<Item>)

  datatype Change =
    | Upsert(thread: ThreadId, entry: Item)
    | Remove(thread: ThreadId, id: string)
    | Reset(which: Option<ThreadId>)
    | Turn(thread: ThreadId, turn: Item)
    | Unknown

  // --- What one change makes of a thread ---

  /** The first item of that id replaced, or the item at the end. */
  function Put(items: seq<Item>, item: Item): seq<Item> {
    if items == [] then [item]
    else if items[0].id == item.id then [item] + items[1..]
    else [items[0]] + Put(items[1..], item)
  }

  function Without(items: seq<Item>, id: string): seq<Item> {
    if items == [] then []
    else (if items[0].id == id then [] else [items[0]]) + Without(items[1..], id)
  }

  function ThreadOf(threads: map<ThreadId, Thread>, id: ThreadId): Thread {
    if id in threads then threads[id] else Thread([], [])
  }

  function After(threads: map<ThreadId, Thread>, change: Change): map<ThreadId, Thread> {
    match change
    case Upsert(id, entry) =>
      var was := ThreadOf(threads, id);
      threads[id := was.(entries := Put(was.entries, entry))]
    case Remove(id, gone) =>
      var was := ThreadOf(threads, id);
      threads[id := Thread(Without(was.entries, gone), Without(was.turns, gone))]
    case Reset(Some(id)) => threads - {id}
    case Reset(None) => map[]
    case Turn(id, turn) =>
      var was := ThreadOf(threads, id);
      threads[id := was.(turns := Put(was.turns, turn))]
    case Unknown => threads
  }

  function AfterAll(threads: map<ThreadId, Thread>, changes: seq<Change>): map<ThreadId, Thread> {
    if changes == [] then threads else After(AfterAll(threads, changes[..|changes| - 1]), changes[|changes| - 1])
  }

  // --- The copy ---

  lemma {:induction false} PutAt(items: seq<Item>, item: Item, k: nat)
    requires k <= |items| && forall j | 0 <= j < k :: items[j].id != item.id
    requires k < |items| ==> items[k].id == item.id
    ensures Put(items, item) == if k < |items| then items[k := item] else items + [item]
  {
    if k > 0 {
      PutAt(items[1..], item, k - 1);
    }
  }

  /** `iter_mut().find`, then the write or the push. */
  method PutIn(items: seq<Item>, item: Item) returns (r: seq<Item>)
    ensures r == Put(items, item)
  {
    var k := 0;
    while k < |items| && items[k].id != item.id
      invariant k <= |items| && forall j | 0 <= j < k :: items[j].id != item.id
    {
      k := k + 1;
    }
    PutAt(items, item, k);
    r := if k < |items| then items[k := item] else items + [item];
  }

  lemma {:induction false} WithoutJoins(a: seq<Item>, b: seq<Item>, id: string)
    ensures Without(a + b, id) == Without(a, id) + Without(b, id)
  {
    if a == [] {
      assert a + b == b;
    } else {
      assert (a + b)[1..] == a[1..] + b;
      WithoutJoins(a[1..], b, id);
    }
  }

  /** `retain` of the items of other ids. */
  method Retain(items: seq<Item>, id: string) returns (r: seq<Item>)
    ensures r == Without(items, id)
  {
    r := [];
    for k := 0 to |items|
      invariant r == Without(items[..k], id)
    {
      OneMore(items, k);
      WithoutJoins(items[..k], [items[k]], id);
      if items[k].id != id {
        r := r + [items[k]];
      }
    }
    assert items[..|items|] == items;
  }

  class Copy {
    var threads: map<ThreadId, Thread>

    constructor ()
      ensures threads == map[]
    {
      threads := map[];
    }

    method Apply(changes: seq<Change>)
      modifies this
      ensures threads == AfterAll(old(threads), changes)
    {
      for k := 0 to |changes|
        invariant threads == AfterAll(old(threads), changes[..k])
      {
        OneMore(changes, k);
        match changes[k]
        case Upsert(id, entry) =>
          var was := ThreadOf(threads, id);
          var entries := PutIn(was.entries, entry);
          threads := threads[id := was.(entries := entries)];
        case Remove(id, gone) =>
          var was := ThreadOf(threads, id);
          var entries := Retain(was.entries, gone);
          var turns := Retain(was.turns, gone);
          threads := threads[id := Thread(entries, turns)];
        case Reset(Some(id)) =>
          threads := threads - {id};
        case Reset(None) =>
          threads := map[];
        case Turn(id, turn) =>
          var was := ThreadOf(threads, id);
          var turns := PutIn(was.turns, turn);
          threads := threads[id := was.(turns := turns)];
        case Unknown =>
      }
      assert changes[..|changes|] == changes;
    }
  }

  // --- What a change does to one list of one thread ---

  datatype Act = Puts(item: Item) | Drops(id: string) | Clears | Leaves

  function EntryAct(change: Change, thread: ThreadId): Act {
    match change
    case Upsert(t, entry) => if t == thread then Puts(entry) else Leaves
    case Remove(t, id) => if t == thread then Drops(id) else Leaves
    case Reset(which) => if which == None || which == Some(thread) then Clears else Leaves
    case _ => Leaves
  }

  /** A turn goes with the entry of its prompt. */
  function TurnAct(change: Change, thread: ThreadId): Act {
    match change
    case Turn(t, turn) => if t == thread then Puts(turn) else Leaves
    case Remove(t, id) => if t == thread then Drops(id) else Leaves
    case Reset(which) => if which == None || which == Some(thread) then Clears else Leaves
    case _ => Leaves
  }

  function EntryActs(changes: seq<Change>, thread: ThreadId): seq<Act> {
    if changes == [] then []
    else EntryActs(changes[..|changes| - 1], thread) + [EntryAct(changes[|changes| - 1], thread)]
  }

  function TurnActs(changes: seq<Change>, thread: ThreadId): seq<Act> {
    if changes == [] then []
    else TurnActs(changes[..|changes| - 1], thread) + [TurnAct(changes[|changes| - 1], thread)]
  }

  function Done(items: seq<Item>, act: Act): seq<Item> {
    match act
    case Puts(item) => Put(items, item)
    case Drops(id) => Without(items, id)
    case Clears => []
    case Leaves => items
  }

  function DoneAll(items: seq<Item>, acts: seq<Act>): seq<Item> {
    if acts == [] then items else Done(DoneAll(items, acts[..|acts| - 1]), acts[|acts| - 1])
  }

  lemma ActOn(items: seq<Item>, acts: seq<Act>, act: Act)
    ensures DoneAll(items, acts + [act]) == Done(DoneAll(items, acts), act)
  {
    assert (acts + [act])[..|acts|] == acts;
  }

  lemma ThreadAct(threads: map<ThreadId, Thread>, change: Change, thread: ThreadId)
    ensures var was, after := ThreadOf(threads, thread), ThreadOf(After(threads, change), thread);
      && after.entries == Done(was.entries, EntryAct(change, thread))
      && after.turns == Done(was.turns, TurnAct(change, thread))
  {
  }

  /** A thread's lists are what the changes do to them. */
  lemma {:induction false} ThreadActs(threads: map<ThreadId, Thread>, changes: seq<Change>, thread: ThreadId)
    ensures var was, after := ThreadOf(threads, thread), ThreadOf(AfterAll(threads, changes), thread);
      && after.entries == DoneAll(was.entries, EntryActs(changes, thread))
      && after.turns == DoneAll(was.turns, TurnActs(changes, thread))
  {
    if changes != [] {
      var front, last := changes[..|changes| - 1], changes[|changes| - 1];
      ThreadActs(threads, front, thread);
      ThreadAct(AfterAll(threads, front), last, thread);
      ActOn(ThreadOf(threads, thread).entries, EntryActs(front, thread), EntryAct(last, thread));
      ActOn(ThreadOf(threads, thread).turns, TurnActs(front, thread), TurnAct(last, thread));
    }
  }

  // --- What the copy holds ---

  /** The item held under an id. */
  function Find(items: seq<Item>, id: string): Option<Item> {
    if items == [] then None
    else if items[0].id == id then Some(items[0])
    else Find(items[1..], id)
  }

  predicate Ends(act: Act, id: string) {
    act.Clears? || act == Drops(id)
  }

  /** What the last act about an id left of it: what it put, or nothing. */
  function Last(acts: seq<Act>, id: string, was: Option<Item>): Option<Item> {
    if acts == [] then was
    else
      var act := acts[|acts| - 1];
      if Ends(act, id) then None
      else if act.Puts? && act.item.id == id then Some(act.item)
      else Last(acts[..|acts| - 1], id, was)
  }

  lemma {:induction false} PutFinds(items: seq<Item>, item: Item, id: string)
    ensures Find(Put(items, item), id) == if id == item.id then Some(item) else Find(items, id)
  {
    if items != [] && items[0].id != item.id {
      PutFinds(items[1..], item, id);
    }
  }

  lemma {:induction false} WithoutFinds(items: seq<Item>, gone: string, id: string)
    ensures Find(Without(items, gone), id) == if id == gone then None else Find(items, id)
  {
    if items != [] {
      WithoutFinds(items[1..], gone, id);
      if items[0].id == gone {
        assert Without(items, gone) == Without(items[1..], gone);
      }
    }
  }

  lemma {:induction false} FindsLast(items: seq<Item>, acts: seq<Act>, id: string)
    ensures Find(DoneAll(items, acts), id) == Last(acts, id, Find(items, id))
  {
    if acts != [] {
      var front, act := acts[..|acts| - 1], acts[|acts| - 1];
      FindsLast(items, front, id);
      match act
      case Puts(item) => PutFinds(DoneAll(items, front), item, id);
      case Drops(gone) => WithoutFinds(DoneAll(items, front), gone, id);
      case _ =>
    }
  }

  /** After any changes the copy holds of each entry and turn what was last said of it. */
  lemma HoldsTheLast(threads: map<ThreadId, Thread>, changes: seq<Change>, thread: ThreadId, id: string)
    ensures var was, after := ThreadOf(threads, thread), ThreadOf(AfterAll(threads, changes), thread);
      && Find(after.entries, id) == Last(EntryActs(changes, thread), id, Find(was.entries, id))
      && Find(after.turns, id) == Last(TurnActs(changes, thread), id, Find(was.turns, id))
  {
    ThreadActs(threads, changes, thread);
    FindsLast(ThreadOf(threads, thread).entries, EntryActs(changes, thread), id);
    FindsLast(ThreadOf(threads, thread).turns, TurnActs(changes, thread), id);
  }

  // --- In what order ---

  function Ids(items: seq<Item>): seq<string> {
    if items == [] then [] else [items[0].id] + Ids(items[1..])
  }

  function Strike(ids: seq<string>, gone: string): seq<string> {
    if ids == [] then []
    else Strike(ids[..|ids| - 1], gone) + if ids[|ids| - 1] == gone then [] else [ids[|ids| - 1]]
  }

  /** What an act leaves of the ids held. */
  function Left(ids: seq<string>, act: Act): seq<string> {
    match act
    case Drops(gone) => Strike(ids, gone)
    case Clears => []
    case _ => ids
  }

  /** The `k`th act puts an id that was not held, and no later one ends it. */
  ghost predicate Stays(acts: seq<Act>, k: nat)
    requires k < |acts|
  {
    && acts[k].Puts? && Last(acts[..k], acts[k].item.id, None).None?
    && forall j | k < j < |acts| :: !Ends(acts[j], acts[k].item.id)
  }

  /** The ids put by the first `n` acts to stay, in the order they came. */
  ghost function Order(acts: seq<Act>, n: nat): seq<string>
    requires n <= |acts|
  {
    if n == 0 then []
    else Order(acts, n - 1) + if Stays(acts, n - 1) then [acts[n - 1].item.id] else []
  }

  lemma StrikeLast(ids: seq<string>, id: string, gone: string)
    ensures Strike(ids + [id], gone) == Strike(ids, gone) + if id == gone then [] else [id]
  {
    assert (ids + [id])[..|ids|] == ids;
  }

  lemma LeftLast(ids: seq<string>, id: string, act: Act)
    ensures Left(ids + [id], act) == Left(ids, act) + if Ends(act, id) then [] else [id]
  {
    if act.Drops? {
      StrikeLast(ids, id, act.id);
    }
  }

  lemma {:induction false} StrikeJoins(a: seq<string>, b: seq<string>, gone: string)
    ensures Strike(a + b, gone) == Strike(a, gone) + Strike(b, gone)
  {
    if b == [] {
      assert a + b == a;
    } else {
      var n := |b| - 1;
      assert (a + b)[..|a + b| - 1] == a + b[..n];
      StrikeJoins(a, b[..n], gone);
      Assoc(Strike(a, gone), Strike(b[..n], gone), if b[n] == gone then [] else [b[n]]);
    }
  }

  lemma {:induction false} IdsWithout(items: seq<Item>, gone: string)
    ensures Ids(Without(items, gone)) == Strike(Ids(items), gone)
  {
    if items != [] {
      IdsWithout(items[1..], gone);
      StrikeJoins([items[0].id], Ids(items[1..]), gone);
      StrikeLast([], items[0].id, gone);
      assert [] + [items[0].id] == [items[0].id];
      assert [] + Without(items[1..], gone) == Without(items[1..], gone);
      assert ([items[0]] + Without(items[1..], gone))[1..] == Without(items[1..], gone);
    }
  }

  lemma {:induction false} IdsPut(items: seq<Item>, item: Item)
    ensures Ids(Put(items, item)) == if Find(items, item.id).Some? then Ids(items) else Ids(items) + [item.id]
  {
    if items != [] {
      if items[0].id == item.id {
        assert ([item] + items[1..])[1..] == items[1..];
      } else {
        IdsPut(items[1..], item);
        assert ([items[0]] + Put(items[1..], item))[1..] == Put(items[1..], item);
        Assoc([items[0].id], Ids(items[1..]), [item.id]);
      }
    }
  }

  lemma StaysOn(acts: seq<Act>, act: Act, k: nat)
    requires k < |acts|
    ensures Stays(acts + [act], k) <==> Stays(acts, k) && !Ends(act, acts[k].item.id)
  {
    var more := acts + [act];
    assert more[..k] == acts[..k];
    if Stays(acts, k) && !Ends(act, acts[k].item.id) {
      forall j | k < j < |more| ensures !Ends(more[j], acts[k].item.id) {
        assert j < |acts| ==> more[j] == acts[j];
      }
    }
    if Stays(more, k) {
      assert !Ends(more[|acts|], acts[k].item.id);
      forall j | k < j < |acts| ensures !Ends(acts[j], acts[k].item.id) {
        assert more[j] == acts[j];
      }
    }
  }

  lemma {:induction false} OrderOn(acts: seq<Act>, act: Act, n: nat)
    requires n <= |acts|
    ensures Order(acts + [act], n) == Left(Order(acts, n), act)
  {
    if n > 0 {
      OrderOn(acts, act, n - 1);
      StaysOn(acts, act, n - 1);
      var more := acts + [act];
      assert more[n - 1] == acts[n - 1];
      if Stays(acts, n - 1) {
        var id := acts[n - 1].item.id;
        LeftLast(Order(acts, n - 1), id, act);
        assert Order(acts, n) == Order(acts, n - 1) + [id];
      } else {
        assert Order(acts, n) == Order(acts, n - 1);
      }
    }
  }

  /** A list's ids are those put to stay, in the order they came. */
  lemma {:induction false} OrderKept(acts: seq<Act>)
    ensures Ids(DoneAll([], acts)) == Order(acts, |acts|)
  {
    if acts != [] {
      var n := |acts| - 1;
      var front, act := acts[..n], acts[n];
      assert front + [act] == acts;
      OrderKept(front);
      OrderOn(front, act, n);
      match act
      case Puts(item) =>
        FindsLast([], front, item.id);
        IdsPut(DoneAll([], front), item);
      case Drops(gone) => IdsWithout(DoneAll([], front), gone);
      case _ =>
    }
  }

  /**
   From the start, the copy holds a thread's entries and turns in the order they
   were first put since they were last gone; with `HoldsTheLast` that is all of it.
   */
  lemma HoldsInOrder(changes: seq<Change>, thread: ThreadId)
    ensures var after := ThreadOf(AfterAll(map[], changes), thread);
      && Ids(after.entries) == Order(EntryActs(changes, thread), |EntryActs(changes, thread)|)
      && Ids(after.turns) == Order(TurnActs(changes, thread), |TurnActs(changes, thread)|)
  {
    ThreadActs(map[], changes, thread);
    OrderKept(EntryActs(changes, thread));
    OrderKept(TurnActs(changes, thread));
  }

  ghost predicate NoIdTwice(items: seq<Item>) {
    forall i, j | 0 <= i < j < |items| :: items[i].id != items[j].id
  }

  /** No id twice, in any thread. */
  ghost predicate Tidy(threads: map<ThreadId, Thread>) {
    forall id | id in threads :: NoIdTwice(threads[id].entries) && NoIdTwice(threads[id].turns)
  }

  lemma {:induction false} WithoutTidy(items: seq<Item>, gone: string)
    requires NoIdTwice(items)
    ensures NoIdTwice(Without(items, gone))
    ensures forall k | 0 <= k < |Without(items, gone)| :: Without(items, gone)[k] in items
  {
    if items != [] {
      WithoutTidy(items[1..], gone);
    }
  }

  lemma PutTidy(items: seq<Item>, item: Item)
    requires NoIdTwice(items)
    ensures NoIdTwice(Put(items, item))
  {
    var k := 0;
    while k < |items| && items[k].id != item.id
      invariant k <= |items| && forall j | 0 <= j < k :: items[j].id != item.id
    {
      k := k + 1;
    }
    PutAt(items, item, k);
  }

  lemma {:induction false} StaysTidy(threads: map<ThreadId, Thread>, changes: seq<Change>)
    requires Tidy(threads)
    ensures Tidy(AfterAll(threads, changes))
  {
    if changes != [] {
      var was := AfterAll(threads, changes[..|changes| - 1]);
      StaysTidy(threads, changes[..|changes| - 1]);
      match changes[|changes| - 1]
      case Upsert(id, entry) => PutTidy(ThreadOf(was, id).entries, entry);
      case Turn(id, turn) => PutTidy(ThreadOf(was, id).turns, turn);
      case Remove(id, gone) =>
        WithoutTidy(ThreadOf(was, id).entries, gone);
        WithoutTidy(ThreadOf(was, id).turns, gone);
      case _ =>
    }
  }
}
