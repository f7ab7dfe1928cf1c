/**
 * The event table (services/EventService.ts): handlers subscribed under an event name
 * with an id that is unique across all events, and `run`, which calls every handler
 * of an event in subscription order. Handlers are opaque: the model records which
 * handler was called with which arguments.
 */
module Events {
  import opened Wrappers

  type Id = string

  /** A subscribed callback, known by its identity only. */
  type Handler = nat

  datatype EventInfo = EventInfo(name: string, id: Id, handler: Handler)

  /** One call of a handler by `run`. */
  datatype Invocation = Invocation(handler: Handler, args: string)

  /** "Duplicate ID on different events". */
  datatype DuplicateId = DuplicateId

  /** The position of the entry with id `id` (`findIndex`), or -1. */
  function IndexOfId(infos: seq<EventInfo>, id: Id): (r: int)
    ensures r == -1 <==> forall k :: 0 <= k < |infos| ==> infos[k].id != id
    ensures r != -1 ==> 0 <= r < |infos| && infos[r].id == id
    ensures r != -1 ==> forall k :: 0 <= k < r ==> infos[k].id != id
  {
    if infos == [] then -1
    else if infos[0].id == id then 0
    else
      var k := IndexOfId(infos[1..], id);
      if k == -1 then -1 else k + 1
  }

  /** The table with a (possibly empty) list for `name`. */
  function WithList(events: map<string, seq<EventInfo>>, name: string): (r: map<string, seq<EventInfo>>)
    ensures name in r && r.Keys == events.Keys + {name}
    ensures forall n :: n in events ==> r[n] == events[n]
  {
    if name in events then events else events[name := []]
  }

  /** `infos` with the handler of the entry `id` replaced. */
  function Rebind(infos: seq<EventInfo>, id: Id, handler: Handler): (r: seq<EventInfo>)
    ensures |r| == |infos|
    ensures forall k :: 0 <= k < |infos| ==>
              r[k] == if infos[k].id == id then infos[k].(handler := handler) else infos[k]
  {
    if infos == [] then []
    else [if infos[0].id == id then infos[0].(handler := handler) else infos[0]] + Rebind(infos[1..], id, handler)
  }

  /** Every registered id sits in the list of its event. */
  ghost predicate Registered(events: map<string, seq<EventInfo>>, existence: map<Id, EventInfo>)
  {
    forall id | id in existence ::
      existence[id].id == id && existence[id].name in events && IndexOfId(events[existence[id].name], id) != -1
  }

  /** Every listed entry is registered, as itself, and lists under its own name. */
  ghost predicate EntriesRegistered(events: map<string, seq<EventInfo>>, existence: map<Id, EventInfo>)
  {
    forall name, k | name in events && 0 <= k < |events[name]| ::
      events[name][k].name == name && events[name][k].id in existence && existence[events[name][k].id] == events[name][k]
  }

  /** No list holds an id twice. */
  ghost predicate UniqueIds(events: map<string, seq<EventInfo>>)
  {
    forall name, i, j | name in events && 0 <= i < j < |events[name]| :: events[name][i].id != events[name][j].id
  }

  ghost predicate ValidTables(events: map<string, seq<EventInfo>>, existence: map<Id, EventInfo>)
  {
    Registered(events, existence) && EntriesRegistered(events, existence) && UniqueIds(events)
  }

  /** A new empty list keeps the tables valid. */
  lemma NewListKeepsValid(events: map<string, seq<EventInfo>>, existence: map<Id, EventInfo>, name: string)
    requires ValidTables(events, existence) && name !in events
    ensures ValidTables(events[name := []], existence)
  {
    var ev := events[name := []];
    forall id | id in existence
      ensures existence[id].name in ev && IndexOfId(ev[existence[id].name], id) != -1
    {
      assert existence[id].name != name;
    }
  }

  /** Registering a new id at the end of its event's list keeps the tables valid. */
  lemma AppendKeepsValid(events: map<string, seq<EventInfo>>, existence: map<Id, EventInfo>, name: string,
                         id: Id, handler: Handler)
    requires ValidTables(events, existence) && name in events && id !in existence
    ensures var info := EventInfo(name, id, handler);
            ValidTables(events[name := events[name] + [info]], existence[id := info])
  {
    var info := EventInfo(name, id, handler);
    var ev := events[name := events[name] + [info]];
    var ex := existence[id := info];
    AppendRegistered(events, existence, name, id, handler, ev, ex);
    AppendEntries(events, existence, name, id, handler, ev, ex);
    forall n, i, j | n in ev && 0 <= i < j < |ev[n]| ensures ev[n][i].id != ev[n][j].id {
      if n == name && j == |events[name]| {
        assert events[name][i].id in existence;
      }
    }
  }

  lemma AppendRegistered(events: map<string, seq<EventInfo>>, existence: map<Id, EventInfo>, name: string,
                         id: Id, handler: Handler, ev: map<string, seq<EventInfo>>, ex: map<Id, EventInfo>)
    requires Registered(events, existence) && name in events && id !in existence
    requires ev == events[name := events[name] + [EventInfo(name, id, handler)]]
    requires ex == existence[id := EventInfo(name, id, handler)]
    ensures Registered(ev, ex)
  {
    forall i | i in ex
      ensures ex[i].id == i && ex[i].name in ev && IndexOfId(ev[ex[i].name], i) != -1
    {
      if i != id {
        var l := events[ex[i].name];
        var k := IndexOfId(l, i);
        assert ev[ex[i].name][k] == l[k];
      } else {
        assert ev[name][|events[name]|].id == id;
      }
    }
  }

  lemma AppendEntries(events: map<string, seq<EventInfo>>, existence: map<Id, EventInfo>, name: string,
                      id: Id, handler: Handler, ev: map<string, seq<EventInfo>>, ex: map<Id, EventInfo>)
    requires EntriesRegistered(events, existence) && name in events && id !in existence
    requires ev == events[name := events[name] + [EventInfo(name, id, handler)]]
    requires ex == existence[id := EventInfo(name, id, handler)]
    ensures EntriesRegistered(ev, ex)
  {
    forall n, k | n in ev && 0 <= k < |ev[n]|
      ensures ev[n][k].name == n && ev[n][k].id in ex && ex[ev[n][k].id] == ev[n][k]
    {
      if !(n == name && k == |events[name]|) {
        assert ev[n][k] == events[n][k];
        assert events[n][k].id in existence;
      }
    }
  }

  /** Replacing the handler of the entry at `index` is rebinding the list. */
  lemma RebindAt(l: seq<EventInfo>, id: Id, index: int, handler: Handler)
    requires 0 <= index < |l| && index == IndexOfId(l, id)
    requires forall i, j :: 0 <= i < j < |l| ==> l[i].id != l[j].id
    ensures l[index := l[index].(handler := handler)] == Rebind(l, id, handler)
  {
    var info := l[index].(handler := handler);
    forall k | 0 <= k < |l| ensures l[index := info][k] == Rebind(l, id, handler)[k] {
      if k > index {
        assert l[index].id != l[k].id;
      }
    }
  }

  /** Replacing the handler of a registered entry keeps the tables valid. */
  lemma RebindKeepsValid(events: map<string, seq<EventInfo>>, existence: map<Id, EventInfo>, name: string,
                         id: Id, index: int, handler: Handler)
    requires ValidTables(events, existence) && id in existence && existence[id].name == name
    requires index == IndexOfId(events[name], id)
    ensures 0 <= index < |events[name]|
    ensures var info := events[name][index].(handler := handler);
            && events[name][index := info] == Rebind(events[name], id, handler)
            && existence[id].(handler := handler) == info
            && ValidTables(events[name := events[name][index := info]], existence[id := info])
  {
    var l := events[name];
    var info := l[index].(handler := handler);
    RebindAt(l, id, index, handler);
    assert existence[id] == l[index];
    var ev := events[name := l[index := info]];
    var ex := existence[id := info];
    RebindEntries(events, existence, name, id, index, handler, ev, ex);
    RebindRegistered(events, existence, name, id, index, handler, ev, ex);
    RebindUnique(events, name, index, handler, ev);
  }

  lemma RebindRegistered(events: map<string, seq<EventInfo>>, existence: map<Id, EventInfo>, name: string,
                         id: Id, index: int, handler: Handler, ev: map<string, seq<EventInfo>>, ex: map<Id, EventInfo>)
    requires Registered(events, existence) && name in events && 0 <= index < |events[name]|
    requires id in existence && existence[id] == events[name][index] && existence[id].name == name && events[name][index].id == id
    requires ev == events[name := events[name][index := events[name][index].(handler := handler)]]
    requires ex == existence[id := events[name][index].(handler := handler)]
    ensures Registered(ev, ex)
  {
    forall i | i in ex
      ensures ex[i].id == i && ex[i].name in ev && IndexOfId(ev[ex[i].name], i) != -1
    {
      var j := IndexOfId(events[ex[i].name], i);
      assert ev[ex[i].name][j].id == i;
    }
  }

  lemma RebindUnique(events: map<string, seq<EventInfo>>, name: string, index: int, handler: Handler,
                     ev: map<string, seq<EventInfo>>)
    requires UniqueIds(events) && name in events && 0 <= index < |events[name]|
    requires ev == events[name := events[name][index := events[name][index].(handler := handler)]]
    ensures UniqueIds(ev)
  {
    forall n, i, j | n in ev && 0 <= i < j < |ev[n]| ensures ev[n][i].id != ev[n][j].id {
      assert ev[n][i].id == events[n][i].id && ev[n][j].id == events[n][j].id;
    }
  }

  lemma RebindEntries(events: map<string, seq<EventInfo>>, existence: map<Id, EventInfo>, name: string,
                      id: Id, index: int, handler: Handler, ev: map<string, seq<EventInfo>>, ex: map<Id, EventInfo>)
    requires EntriesRegistered(events, existence) && name in events && 0 <= index < |events[name]|
    requires events[name][index].id == id
    requires ev == events[name := events[name][index := events[name][index].(handler := handler)]]
    requires ex == existence[id := events[name][index].(handler := handler)]
    requires UniqueIds(events)
    ensures EntriesRegistered(ev, ex)
  {
    forall n, k | n in ev && 0 <= k < |ev[n]|
      ensures ev[n][k].name == n && ev[n][k].id in ex && ex[ev[n][k].id] == ev[n][k]
    {
      if !(n == name && k == index) {
        assert ev[n][k] == events[n][k] && events[n][k].id in existence;
        assert existence[events[n][k].id] == events[n][k];
        assert existence[id] == events[name][index];
      }
    }
  }

  class EventService {
    var events: map<string, seq<EventInfo>>
    var existence: map<Id, EventInfo>

    /** Every registered id sits exactly once in the list of its event, as the entry the
        id table holds; every listed entry is registered and lists under its own name. */
    ghost predicate Valid()
      reads this
    {
      ValidTables(events, existence)
    }

    constructor ()
      ensures Valid() && events == map[] && existence == map[]
    {
      events := map[];
      existence := map[];
    }

    /** Every id is listed at most once in all the lists together. */
    lemma IdsListedOnce(n1: string, k1: nat, n2: string, k2: nat)
      requires Valid() && n1 in events && n2 in events && k1 < |events[n1]| && k2 < |events[n2]|
      requires events[n1][k1].id == events[n2][k2].id
      ensures n1 == n2 && k1 == k2
    {
      assert existence[events[n1][k1].id] == events[n1][k1];
    }

    /** `subscribe(name, id, handler)`. A new id is appended to the event's list and
        registered. A known id under the same event gets the new handler in place. A known
        id under another event is refused, leaving only a new empty list behind. */
    method Subscribe(name: string, id: Id, handler: Handler) returns (r: Outcome<DuplicateId>)
      requires Valid()
      modifies this
      ensures Valid()
      ensures old(id !in existence) ==>
                && r == Pass
                && existence == old(existence)[id := EventInfo(name, id, handler)]
                && events == WithList(old(events), name)[name := WithList(old(events), name)[name] + [EventInfo(name, id, handler)]]
      ensures old(id in existence) && old(existence[id].name) == name ==>
                && r == Pass
                && existence == old(existence)[id := old(existence[id]).(handler := handler)]
                && events == old(events)[name := Rebind(old(events[name]), id, handler)]
      ensures old(id in existence) && old(existence[id].name) != name ==>
                r == Fail(DuplicateId) && existence == old(existence) && events == WithList(old(events), name)
    {
      if name !in events {
        NewListKeepsValid(events, existence, name);
        events := events[name := []];
      }
      assert events == WithList(old(events), name);
      if id in existence {
        if existence[id].name != name {
          return Fail(DuplicateId);
        }
        var index := IndexOfId(events[name], id);
        RebindKeepsValid(events, existence, name, id, index, handler);
        var info := events[name][index].(handler := handler);
        events := events[name := events[name][index := info]];
        existence := existence[id := info];
      } else {
        var info := EventInfo(name, id, handler);
        AppendKeepsValid(events, existence, name, id, handler);
        events := events[name := events[name] + [info]];
        existence := existence[id := info];
      }
      r := Pass;
    }

    /** `run(name, args)`: every handler of the event, in list order, with the same
        arguments; an event nobody subscribed to calls nothing. */
    method Run(name: string, args: string) returns (invoked: seq<Invocation>)
      ensures name !in events ==> invoked == []
      ensures name in events ==>
                && |invoked| == |events[name]|
                && forall k :: 0 <= k < |invoked| ==> invoked[k] == Invocation(events[name][k].handler, args)
    {
      invoked := [];
      if name !in events {
        return;
      }
      var infos := events[name];
      var i := 0;
      while i < |infos|
        invariant 0 <= i <= |infos| && |invoked| == i
        invariant forall k :: 0 <= k < i ==> invoked[k] == Invocation(infos[k].handler, args)
      {
        invoked := invoked + [Invocation(infos[i].handler, args)];
        i := i + 1;
      }
    }
  }
}
