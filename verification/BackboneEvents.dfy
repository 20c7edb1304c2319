/**
 The event registry of Backbone: for each event a linked list that ends in an empty sentinel node.
 `on` fills the sentinel and puts a new one behind it, `off` builds a new list of the survivors, and
 `trigger` walks from the head that it read first to the tail that it read first.
 */
module BackboneEvents {
  import opened Common

  // An event name; handlers of "all" hear every event.
  datatype Event = All | Named(id: nat)

  datatype Handler = Handler(callback: nat, context: Option<nat>)

  type Registry = map<Event, seq<Handler>>

  // ---------- what the operations mean ----------

  function HandlersOf(reg: Registry, e: Event): seq<Handler> {
    if e in reg then reg[e] else []
  }

  function Appended(reg: Registry, e: Event, h: Handler): Registry {
    reg[e := HandlersOf(reg, e) + [h]]
  }

  // A handler stays if it differs from what is asked to go; asking for nothing removes everything.
  predicate Stays(h: Handler, callback: Option<nat>, context: Option<nat>) {
    (callback.Some? && h.callback != callback.value) || (context.Some? && h.context != context)
  }

  function Survivors(hs: seq<Handler>, callback: Option<nat>, context: Option<nat>): seq<Handler> {
    if hs == [] then []
    else Survivors(hs[..|hs| - 1], callback, context) +
         if Stays(hs[|hs| - 1], callback, context) then [hs[|hs| - 1]] else []
  }

  // Removing from the events es; an event left without handlers disappears.
  function RemovedIn(reg: Registry, es: set<Event>, callback: Option<nat>, context: Option<nat>): Registry {
    map e | e in reg && (e in es ==> Survivors(reg[e], callback, context) != [])
      :: if e in es then Survivors(reg[e], callback, context) else reg[e]
  }

  // Removing from one event, or from all of them.
  function Removed(reg: Registry, name: Option<Event>, callback: Option<nat>, context: Option<nat>): Registry {
    RemovedIn(reg, if name.Some? then {name.value} else reg.Keys, callback, context)
  }

  datatype Op =
    | On(event: Event, handler: Handler)
    | Off(name: Option<Event>, callback: Option<nat>, context: Option<nat>)

  function Apply(reg: Registry, op: Op): Registry {
    match op
    case On(e, h) => Appended(reg, e, h)
    case Off(name, callback, context) => Removed(reg, name, callback, context)
  }

  function ApplyAll(reg: Registry, ops: seq<Op>): Registry {
    if ops == [] then reg else Apply(ApplyAll(reg, ops[..|ops| - 1]), ops[|ops| - 1])
  }

  lemma {:induction false} ApplyAllJoins(reg: Registry, a: seq<Op>, b: seq<Op>)
    ensures ApplyAll(ApplyAll(reg, a), b) == ApplyAll(reg, a + b)
  {
    if b == [] {
      assert a + b == a;
    } else {
      assert (a + b)[..|a + b| - 1] == a + b[..|b| - 1];
      ApplyAllJoins(reg, a, b[..|b| - 1]);
    }
  }

  // One handler call of a dispatch; a handler of "all" is also given the name of the event.
  datatype Call = Call(handler: Handler, name: Option<Event>)

  function CallsOf(hs: seq<Handler>, name: Option<Event>): seq<Call> {
    seq(|hs|, i requires 0 <= i < |hs| => Call(hs[i], name))
  }

  // What the handlers of the first n calls do to the registry: the k-th call performs script(k).
  function Performed(script: nat -> seq<Op>, n: nat): seq<Op> {
    if n == 0 then [] else Performed(script, n - 1) + script(n - 1)
  }

  lemma {:induction false} SurvivorsAre(hs: seq<Handler>, callback: Option<nat>, context: Option<nat>)
    ensures |Survivors(hs, callback, context)| <= |hs|
    ensures |Survivors(hs, callback, context)| == |hs| <==> forall h | h in hs :: Stays(h, callback, context)
    ensures |Survivors(hs, callback, context)| == |hs| ==> Survivors(hs, callback, context) == hs
  {
    if hs != [] {
      var init, last := hs[..|hs| - 1], hs[|hs| - 1];
      assert hs == init + [last];
      SurvivorsAre(init, callback, context);
    }
  }

  lemma SurvivorsSnoc(hs: seq<Handler>, last: Handler, callback: Option<nat>, context: Option<nat>)
    ensures Survivors(hs + [last], callback, context) ==
              if Stays(last, callback, context) then Survivors(hs, callback, context) + [last]
              else Survivors(hs, callback, context)
  {
    assert (hs + [last])[..|hs|] == hs;
  }

  lemma {:induction false} SurvivorsCount(hs: seq<Handler>, callback: Option<nat>, context: Option<nat>, h: Handler)
    ensures multiset(Survivors(hs, callback, context))[h] ==
              if (callback == None || callback == Some(h.callback)) && (context == None || context == h.context)
              then 0 else multiset(hs)[h]
  {
    if hs != [] {
      var front, last := hs[..|hs| - 1], hs[|hs| - 1];
      assert hs == front + [last];
      hide Survivors;
      SurvivorsCount(front, callback, context, h);
      SurvivorsSnoc(front, last, callback, context);
    }
  }

  lemma {:induction false} SurvivorsJoin(a: seq<Handler>, b: seq<Handler>, callback: Option<nat>, context: Option<nat>)
    ensures Survivors(a + b, callback, context) == Survivors(a, callback, context) + Survivors(b, callback, context)
  {
    if b == [] {
      assert a + b == a;
    } else {
      assert (a + b)[..|a + b| - 1] == a + b[..|b| - 1];
      SurvivorsJoin(a, b[..|b| - 1], callback, context);
    }
  }

  // What off does, for every event e and every handler h: of the handlers of a concerned event those
  // go whose callback is the given one, if one is given, and whose context is the given one, if one
  // is given; all others stay as often as they were there.  Events without handlers disappear, and
  // events not concerned keep their list.
  lemma OffPlainly(reg: Registry, name: Option<Event>, callback: Option<nat>, context: Option<nat>, e: Event, h: Handler)
    ensures var reg' := Removed(reg, name, callback, context);
            && ApplyAll(reg, [Off(name, callback, context)]) == reg'
            && ((e in reg' && h in reg'[e]) <==>
                (e in reg && h in reg[e] &&
                 !((name == None || name == Some(e)) && (callback == None || callback == Some(h.callback)) &&
                   (context == None || context == h.context))))
            && (e in reg' && h in reg'[e] ==> multiset(reg'[e])[h] == multiset(reg[e])[h])
            && (e in reg' && (name == None || name == Some(e)) ==> reg'[e] != [])
            && (e in reg && name != None && name != Some(e) ==> e in reg' && reg'[e] == reg[e])
  {
    ApplyOne(reg, Off(name, callback, context));
    hide Survivors, ApplyAll;
    if e in reg {
      var left := Survivors(reg[e], callback, context);
      SurvivorsCount(reg[e], callback, context, h);
      assert h in reg[e] <==> multiset(reg[e])[h] > 0;
      assert h in left <==> multiset(left)[h] > 0;
    }
  }

  lemma ApplyOne(reg: Registry, op: Op)
    ensures ApplyAll(reg, [op]) == Apply(reg, op)
  {
    assert [op][..0] == [];
  }

  lemma OnPlainly(reg: Registry, e: Event, h: Handler)
    ensures var reg' := ApplyAll(reg, [On(e, h)]);
            && e in reg' && reg'[e] == (if e in reg then reg[e] else []) + [h]
            && (forall f | f != e :: f in reg' <==> f in reg)
            && (forall f | f in reg && f != e :: reg'[f] == reg[f])
  {
    ApplyOne(reg, On(e, h));
  }

  // Taking the new handler away again restores the registry exactly when no older handler of the
  // event has the same callback and, if the new one has a context, the same context.
  lemma OffUndoesOn(reg: Registry, e: Event, h: Handler)
    requires forall f | f in reg :: reg[f] != []
    ensures Apply(Apply(reg, On(e, h)), Off(Some(e), Some(h.callback), h.context)) == reg
      <==> forall g | e in reg && g in reg[e] :: g.callback != h.callback || (h.context != None && g.context != h.context)
  {
    var hs := HandlersOf(reg, e);
    var left := Survivors(hs, Some(h.callback), h.context);
    SurvivorsSnoc(hs, h, Some(h.callback), h.context);
    SurvivorsAre(hs, Some(h.callback), h.context);
    hide Survivors;
    var reg' := Removed(Appended(reg, e, h), Some(e), Some(h.callback), h.context);
    if left == hs {
      assert reg' == reg;
    } else {
      assert e in reg;
      assert e in reg' ==> reg'[e] == left;
    }
  }

  // ---------- the linked lists ----------

  class Node {
    var next: Node?
    var callback: nat
    var context: Option<nat>

    constructor ()
    {
      next, callback, context := null, 0, None;
    }
  }

  // The head object of an event's list.
  datatype Head = Head(tail: Node, next: Node)

  function HandlerIn(n: Node): Handler
    reads n
  {
    Handler(n.callback, n.context)
  }

  // What a node that holds a handler contains; it never changes again.
  datatype Cell = Cell(next: Node, handler: Handler)

  type Memory = map<Node, Cell>

  // The nodes of c carry the handlers hs, and are linked in order from the head to its tail.
  ghost predicate Carries(mem: Memory, c: seq<Node>, head: Head, hs: seq<Handler>) {
    && |c| == |hs| > 0 && c[0] == head.next
    && (forall n | n in c :: n in mem)
    && (forall i | 0 <= i < |c| :: mem[c[i]].handler == hs[i])
    && (forall i | 0 <= i < |c| - 1 :: mem[c[i]].next == c[i + 1])
    && mem[c[|c| - 1]].next == head.tail
  }

  ghost predicate Grows(mem: Memory, mem': Memory) {
    forall n | n in mem :: n in mem' && mem'[n] == mem[n]
  }

  lemma CarriesLater(mem: Memory, mem': Memory, c: seq<Node>, head: Head, hs: seq<Handler>)
    requires Carries(mem, c, head, hs) && Grows(mem, mem')
    ensures Carries(mem', c, head, hs)
  {
    assert c[|c| - 1] in c;
    forall i | 0 <= i < |c|
      ensures c[i] in c && mem'[c[i]] == mem[c[i]]
    {
    }
  }

  lemma CarriesOneMore(mem: Memory, c: seq<Node>, head: Head, hs: seq<Handler>, h: Handler, a: Node)
    requires Carries(mem, c, head, hs) && head.tail !in mem
    ensures Carries(mem[head.tail := Cell(a, h)], c + [head.tail], Head(a, head.next), hs + [h])
  {
    var mem' := mem[head.tail := Cell(a, h)];
    CarriesLater(mem, mem', c, head, hs);
  }

  // The state of a registry: the heads, the handlers of each event, the nodes that hold them, and
  // the contents of every node that holds a handler, in the current lists and in discarded ones,
  // and the nodes that are or were sentinels.
  datatype Lists = Lists(heads: map<Event, Head>, registry: Registry, chains: map<Event, seq<Node>>,
                        mem: Memory, tails: set<Node>)

  ghost predicate ListOk(s: Lists, e: Event)
    requires e in s.chains && e in s.heads && e in s.registry
  {
    s.heads[e].tail in s.tails - s.mem.Keys && Carries(s.mem, s.chains[e], s.heads[e], s.registry[e])
  }

  ghost predicate ListsOk(s: Lists) {
    && s.heads.Keys == s.chains.Keys == s.registry.Keys
    && (forall e | e in s.heads :: ListOk(s, e))
    && DistinctTails(s.heads)
  }

  ghost predicate DistinctTails(heads: map<Event, Head>) {
    forall e, f | e in heads && f in heads && e != f :: heads[e].tail != heads[f].tail
  }

  // The sentinel o of event e, or a new node if there is no list, holds a handler now, and a new
  // sentinel a comes behind it.
  ghost function WithTail(s: Lists, e: Event, h: Handler, o: Node, head: Head): Lists {
    Lists(s.heads[e := head],
          Appended(s.registry, e, h),
          s.chains[e := (if e in s.chains then s.chains[e] else []) + [o]],
          s.mem[o := Cell(head.tail, h)],
          s.tails + {head.tail})
  }

  // The sentinel o of event e, or a new node, and the head that e gets with it.
  ghost predicate TailAndHead(s: Lists, e: Event, o: Node, head: Head) {
    && o !in s.mem && head.tail !in s.mem && o != head.tail && head.tail !in s.tails
    && if e in s.heads then o == s.heads[e].tail && head.next == s.heads[e].next
       else o !in s.tails && head.next == o
  }

  lemma AppendedAt(reg: Registry, e: Event, h: Handler)
    ensures Appended(reg, e, h).Keys == reg.Keys + {e}
    ensures Appended(reg, e, h)[e] == (if e in reg then reg[e] else []) + [h]
    ensures forall f | f in reg && f != e :: Appended(reg, e, h)[f] == reg[f]
  {
  }

  lemma OwnListOk(s: Lists, e: Event, h: Handler, o: Node, head: Head)
    requires ListsOk(s) && TailAndHead(s, e, o, head)
    ensures e in WithTail(s, e, h, o, head).registry && ListOk(WithTail(s, e, h, o, head), e)
  {
    if e in s.heads {
      assert ListOk(s, e);
      CarriesOneMore(s.mem, s.chains[e], s.heads[e], s.registry[e], h, head.tail);
    } else {
      assert Carries(s.mem[o := Cell(head.tail, h)], [o], head, [h]);
    }
    hide Carries;
    AppendedAt(s.registry, e, h);
  }

  lemma OtherListOk(s: Lists, e: Event, h: Handler, o: Node, head: Head, f: Event)
    requires ListsOk(s) && f in s.heads && f != e && s.heads[f].tail != o && o !in s.mem
    ensures f in WithTail(s, e, h, o, head).registry && ListOk(WithTail(s, e, h, o, head), f)
  {
    hide Carries, Appended;
    assert ListOk(s, f);
    AppendedAt(s.registry, e, h);
    CarriesLater(s.mem, s.mem[o := Cell(head.tail, h)], s.chains[f], s.heads[f], s.registry[f]);
  }

  lemma NewTailIsDistinct(heads: map<Event, Head>, e: Event, head: Head)
    requires DistinctTails(heads) && forall f | f in heads && f != e :: heads[f].tail != head.tail
    ensures DistinctTails(heads[e := head])
  {
  }

  lemma TailIn(s: Lists, f: Event)
    requires ListsOk(s) && f in s.heads
    ensures s.heads[f].tail in s.tails
  {
    assert ListOk(s, f);
  }

  lemma OtherTail(s: Lists, e: Event, f: Event, o: Node)
    requires ListsOk(s) && f in s.heads && f != e
    requires if e in s.heads then o == s.heads[e].tail else o !in s.tails
    ensures s.heads[f].tail != o
  {
    TailIn(s, f);
  }

  lemma WithTailOk(s: Lists, e: Event, h: Handler, o: Node, head: Head)
    requires ListsOk(s) && TailAndHead(s, e, o, head)
    ensures ListsOk(WithTail(s, e, h, o, head))
  {
    hide Carries, Appended, DistinctTails, ListOk;
    forall f | f in s.heads && f != e
      ensures s.heads[f].tail != head.tail
    {
      TailIn(s, f);
    }
    NewTailIsDistinct(s.heads, e, head);
    var s' := WithTail(s, e, h, o, head);
    AppendedAt(s.registry, e, h);
    assert s'.heads.Keys == s.heads.Keys + {e} && s'.chains.Keys == s.chains.Keys + {e};
    OwnListOk(s, e, h, o, head);
    forall f | f in s'.heads && f != e
      ensures ListOk(s', f)
    {
      OtherTail(s, e, f, o);
      OtherListOk(s, e, h, o, head, f);
    }
  }

  lemma ListFacts(s: Lists, e: Event)
    requires ListsOk(s) && e in s.heads
    ensures e in s.chains && e in s.registry
    ensures s.heads[e].tail in s.tails - s.mem.Keys
    ensures Carries(s.mem, s.chains[e], s.heads[e], s.registry[e])
  {
    assert ListOk(s, e);
  }

  // `delete r[i]`
  ghost function Without(s: Lists, r: Event): Lists {
    Lists(s.heads - {r}, s.registry - {r}, s.chains - {r}, s.mem, s.tails)
  }

  lemma WithoutOk(s: Lists, r: Event)
    requires ListsOk(s)
    ensures ListsOk(Without(s, r))
  {
    var s' := Without(s, r);
    forall e | e in s'.heads
      ensures ListOk(s', e)
    {
      assert ListOk(s, e);
    }
  }

  class Events {
    var callbacks: map<Event, Head>
    ghost var registry: Registry
    ghost var chains: map<Event, seq<Node>>
    ghost var mem: Memory
    ghost var tails: set<Node>

    ghost function State(): Lists
      reads this
    {
      Lists(callbacks, registry, chains, mem, tails)
    }

    ghost predicate Valid()
      reads this, mem.Keys
    {
      && ListsOk(State())
      && forall n | n in mem :: n.next == mem[n].next && HandlerIn(n) == mem[n].handler
    }

    constructor ()
      ensures Valid() && registry == map[] && tails == {}
    {
      callbacks, chains, registry, mem := map[], map[], map[], map[];
      tails := {};
    }

    method On(e: Event, h: Handler)
      requires Valid()
      modifies this, tails
      ensures Valid() && registry == Appended(old(registry), e, h)
      ensures Grows(old(mem), mem) && fresh(tails - old(tails))
    {
      hide ListsOk, Appended, Grows, WithTail;
      var o: Node;
      if e in callbacks {
        ListFacts(State(), e);
        o := callbacks[e].tail;
      } else {
        o := new Node();
      }
      var a := new Node();
      Link(e, h, o, Head(a, if e in callbacks then callbacks[e].next else o));
    }

    // The assignments of on: o holds the handler now, and head is the event's new head.
    method Link(e: Event, h: Handler, o: Node, head: Head)
      requires Valid() && TailAndHead(State(), e, o, head)
      modifies this, o
      ensures Valid() && registry == Appended(old(registry), e, h)
      ensures Grows(old(mem), mem) && tails == old(tails) + {head.tail}
    {
      hide ListsOk, Appended, Grows;
      ghost var before := State();
      WithTailOk(before, e, h, o, head);
      GrowsBy(mem, o, Cell(head.tail, h));
      ghost var after := WithTail(before, e, h, o, head);
      o.next := head.tail;
      o.context := h.context;
      o.callback := h.callback;
      callbacks := callbacks[e := head];
      registry, chains, mem, tails := after.registry, after.chains, after.mem, after.tails;
      forall n | n in mem
        ensures n.next == mem[n].next && HandlerIn(n) == mem[n].handler
      {
        if n != o {
          assert n in before.mem && mem[n] == before.mem[n];
        }
      }
    }

    // `delete r[i]`
    method Delete(r: Event)
      requires Valid()
      modifies this
      ensures Valid() && registry == old(registry) - {r} && mem == old(mem) && tails == old(tails)
    {
      hide ListsOk;
      WithoutOk(State(), r);
      callbacks, chains, registry := callbacks - {r}, chains - {r}, registry - {r};
    }

    // The loop of off over the nodes of a list that is no longer registered.
    method OnSurvivors(r: Event, a: Head, callback: Option<nat>, context: Option<nat>,
                       ghost c: seq<Node>, ghost hs: seq<Handler>)
      requires Valid() && r !in registry && Carries(mem, c, a, hs) && a.tail !in c
      modifies this, tails
      ensures Valid() && registry == WithList(old(registry), r, Survivors(hs, callback, context))
      ensures Grows(old(mem), mem) && fresh(tails - old(tails))
    {
      hide ListsOk, Carries, Grows, WithList, Survivors, Appended;
      var l := a.tail;
      var n: Node? := a.next;
      ghost var j := 0;
      NotEmpty(mem, c, a, hs);
      Walk(mem, c, a, hs, 0);
      GrowsSelf(mem);
      NoSurvivors(registry, r, callback, context);
      assert hs[..0] == [];
      while n != l
        invariant Valid() && Grows(old(mem), mem) && fresh(tails - old(tails))
        invariant 0 <= j <= |c| == |hs| && n == (if j < |c| then c[j] else l)
        invariant registry == WithList(old(registry), r, Survivors(hs[..j], callback, context))
        decreases |c| - j
      {
        CarriesLater(old(mem), mem, c, a, hs);
        Walk(mem, c, a, hs, j);
        SurvivorsStep(old(registry), r, hs, j, callback, context);
        ghost var m := mem;
        var next := n.next;
        if (callback.Some? && n.callback != callback.value) || (context.Some? && n.context != context) {
          On(r, Handler(n.callback, n.context));
          GrowsOn(old(mem), m, mem);
          StillThere(m, mem, n);
        }
        n := n.next;
        j := j + 1;
      }
      assert hs[..j] == hs;
    }

    // One name of off: the event's list is dropped, and the survivors are registered again.
    method OffOne(r: Event, callback: Option<nat>, context: Option<nat>)
      requires Valid()
      modifies this, tails
      ensures Valid() && registry == RemovedFrom(old(registry), r, callback, context)
      ensures Grows(old(mem), mem) && fresh(tails - old(tails))
    {
      hide ListsOk, Carries, WithList, Survivors;
      if r !in callbacks {
        NoList(State(), r);
        return;
      }
      var a := callbacks[r];
      ListFacts(State(), r);
      ghost var c, hs, reg := chains[r], registry[r], registry;
      TailNotIn(mem, c, a, hs);
      Delete(r);
      if callback.Some? || context.Some? {
        OnSurvivors(r, a, callback, context, c, hs);
        ReplacesList(reg, r, Survivors(hs, callback, context));
      } else {
        NothingStays(reg, r, hs);
      }
    }

    method Off(name: Option<Event>, callback: Option<nat>, context: Option<nat>)
      requires Valid()
      modifies this, tails
      ensures Valid() && registry == Removed(old(registry), name, callback, context)
      ensures Grows(old(mem), mem) && fresh(tails - old(tails))
    {
      hide ListsOk, Grows, RemovedIn;
      GrowsSelf(mem);
      KeysAgree(State());
      if name == None && callback == None && context == None {
        AllRemoved(registry);
        Clear();
      } else {
        OffEach(if name.Some? then {name.value} else callbacks.Keys, callback, context);
      }
    }

    // The loop of off over the names; their order makes no difference.
    method OffEach(names: set<Event>, callback: Option<nat>, context: Option<nat>)
      requires Valid()
      modifies this, tails
      ensures Valid() && registry == RemovedIn(old(registry), names, callback, context)
      ensures Grows(old(mem), mem) && fresh(tails - old(tails))
    {
      hide ListsOk, Grows, RemovedIn, RemovedFrom;
      GrowsSelf(mem);
      NoneRemoved(registry, names, callback, context);
      var rest := names;
      while rest != {}
        invariant Valid() && Grows(old(mem), mem) && fresh(tails - old(tails))
        invariant rest <= names && registry == RemovedIn(old(registry), names - rest, callback, context)
        decreases |rest|
      {
        var r :| r in rest;
        OneMoreRemoved(old(registry), names, rest, r, callback, context);
        rest := rest - {r};
        ghost var m, t := mem, tails;
        OffOne(r, callback, context);
        GrowsOn(old(mem), m, mem);
        assert tails - old(tails) <= (tails - t) + (t - old(tails));
      }
      assert names - rest == names;
    }

    // `delete this._callbacks`
    method Clear()
      requires Valid()
      modifies this
      ensures Valid() && registry == map[] && mem == old(mem) && tails == old(tails)
    {
      callbacks, chains, registry := map[], map[], map[];
    }

    // A handler that comes and goes leaves the registry as it was exactly when no older handler of
    // the event has its callback and, if it has one, its context.
    method OnThenOff(e: Event, h: Handler)
      requires Valid()
      modifies this, tails
      ensures Valid() && Grows(old(mem), mem) && fresh(tails - old(tails))
      ensures registry == old(registry) <==>
        forall g | e in old(registry) && g in old(registry)[e] ::
          g.callback != h.callback || (h.context != None && g.context != h.context)
    {
      hide ListsOk, Grows, Appended, RemovedIn;
      forall f | f in registry {
        NoEmptyList(State(), f);
      }
      OffUndoesOn(registry, e, h);
      On(e, h);
      ghost var m, t := mem, tails;
      Off(Some(e), Some(h.callback), h.context);
      GrowsOn(old(mem), m, mem);
      assert tails - old(tails) <= (tails - t) + (t - old(tails));
    }

    // What a handler does to the registry during a dispatch.
    method Perform(ops: seq<Op>)
      requires Valid()
      modifies this, tails
      ensures Valid() && registry == ApplyAll(old(registry), ops)
      ensures Grows(old(mem), mem) && fresh(tails - old(tails))
    {
      hide ListsOk, Grows, Appended, Removed;
      GrowsSelf(mem);
      var k := 0;
      while k < |ops|
        invariant Valid() && Grows(old(mem), mem) && fresh(tails - old(tails))
        invariant 0 <= k <= |ops| && registry == ApplyAll(old(registry), ops[..k])
      {
        ghost var m := mem;
        assert ops[..k + 1][..k] == ops[..k];
        match ops[k] {
          case On(e, h) => On(e, h);
          case Off(name, callback, context) => Off(name, callback, context);
        }
        GrowsOn(old(mem), m, mem);
        k := k + 1;
      }
      assert ops[..k] == ops;
    }

    // The loop of trigger over one list, whatever the handlers do to the registry meanwhile.
    method CallEach(head: Head, name: Option<Event>, script: nat -> seq<Op>, before: seq<Call>,
                    ghost c: seq<Node>, ghost hs: seq<Handler>, ghost start: Registry)
      returns (calls: seq<Call>)
      requires Valid() && Carries(mem, c, head, hs) && head.tail !in c
      requires registry == ApplyAll(start, Performed(script, |before|))
      modifies this, tails
      ensures Valid() && Grows(old(mem), mem) && fresh(tails - old(tails))
      ensures calls == before + CallsOf(hs, name)
      ensures registry == ApplyAll(start, Performed(script, |calls|))
    {
      hide ListsOk, Carries, Grows, ApplyAll, CallsOf, Performed;
      var l := head.tail;
      var n: Node? := head.next;
      calls := before;
      ghost var j := 0;
      NotEmpty(mem, c, head, hs);
      Walk(mem, c, head, hs, 0);
      GrowsSelf(mem);
      FirstCalls(before, hs, name);
      while n != l
        invariant Valid() && Grows(old(mem), mem) && fresh(tails - old(tails))
        invariant 0 <= j <= |c| == |hs| && n == (if j < |c| then c[j] else l)
        invariant calls == before + CallsOf(hs[..j], name)
        invariant registry == ApplyAll(start, Performed(script, |calls|))
        decreases |c| - j
      {
        CarriesLater(old(mem), mem, c, head, hs);
        Walk(mem, c, head, hs, j);
        ghost var m, t := mem, tails;
        PerformedStep(start, script, |calls|);
        NextCall(before, hs, j, name);
        var k := |calls|;
        calls := calls + [Call(Handler(n.callback, n.context), name)];
        Perform(script(k));
        GrowsOn(old(mem), m, mem);
        assert tails - old(tails) <= (tails - t) + (t - old(tails));
        StillThere(m, mem, n);
        n := n.next;
        j := j + 1;
      }
      assert hs[..j] == hs;
    }

    // Every handler registered at the start is called once and in order, first those of the event
    // and then those of "all", and no other; script(k) is what the k-th call does to the registry.
    method Trigger(e: Event, script: nat -> seq<Op>) returns (calls: seq<Call>)
      requires Valid()
      modifies this, tails
      ensures Valid() && Grows(old(mem), mem) && fresh(tails - old(tails))
      ensures calls == CallsOf(HandlersOf(old(registry), e), None) + CallsOf(HandlersOf(old(registry), All), Some(e))
      ensures registry == ApplyAll(old(registry), Performed(script, |calls|))
    {
      hide ListsOk, Carries, Grows, CallsOf, ApplyAll, Performed, HandlersOf;
      NothingPerformed(registry, script);
      HandlersAre(registry, e);
      HandlersAre(registry, All);
      calls := [];
      KeysAgree(State());
      GrowsSelf(mem);
      NoCalls(None);
      NoCalls(Some(e));
      var l := if All in callbacks then Some(callbacks[All]) else None;
      ghost var c, hs, start, m0 := [], [], registry, mem;
      if l.Some? {
        ListFacts(State(), All);
        c, hs := chains[All], registry[All];
        TailNotIn(mem, c, l.value, hs);
      }
      if e in callbacks {
        ListFacts(State(), e);
        TailNotIn(mem, chains[e], callbacks[e], registry[e]);
        calls := CallEach(callbacks[e], None, script, calls, chains[e], registry[e], start);
        assert fresh(tails - old(tails)) && Grows(m0, mem);
        assert calls == CallsOf(HandlersOf(start, e), None);
      }
      if l.Some? {
        ghost var m, t := mem, tails;
        CarriesLater(m0, m, c, l.value, hs);
        calls := CallEach(l.value, Some(e), script, calls, c, hs, start);
        GrowsOn(m0, m, mem);
        assert tails - old(tails) <= (tails - t) + (t - old(tails));
        assert fresh(tails - old(tails));
      }
    }
  }

  // The calls of a dispatch: those of the event's handlers in order, without a name, and then those
  // of the handlers of "all" in order, with the name of the event.
  lemma DispatchPlainly(reg: Registry, e: Event)
    ensures var calls := CallsOf(HandlersOf(reg, e), None) + CallsOf(HandlersOf(reg, All), Some(e));
            var own, all := if e in reg then reg[e] else [], if All in reg then reg[All] else [];
            && |calls| == |own| + |all|
            && (forall i | 0 <= i < |own| :: calls[i] == Call(own[i], None))
            && (forall i | |own| <= i < |calls| :: calls[i] == Call(all[i - |own|], Some(e)))
  {
  }

  lemma NothingPerformed(start: Registry, script: nat -> seq<Op>)
    ensures ApplyAll(start, Performed(script, 0)) == start
  {
  }

  lemma HandlersAre(reg: Registry, e: Event)
    ensures HandlersOf(reg, e) == if e in reg then reg[e] else []
  {
  }

  lemma PerformedStep(start: Registry, script: nat -> seq<Op>, k: nat)
    ensures ApplyAll(ApplyAll(start, Performed(script, k)), script(k)) == ApplyAll(start, Performed(script, k + 1))
  {
    ApplyAllJoins(start, Performed(script, k), script(k));
  }

  lemma FirstCalls(before: seq<Call>, hs: seq<Handler>, name: Option<Event>)
    ensures before == before + CallsOf(hs[..0], name)
  {
  }

  lemma NextCall(before: seq<Call>, hs: seq<Handler>, j: nat, name: Option<Event>)
    requires j < |hs|
    ensures before + CallsOf(hs[..j + 1], name) == before + CallsOf(hs[..j], name) + [Call(hs[j], name)]
  {
    assert CallsOf(hs[..j + 1], name) == CallsOf(hs[..j], name) + [Call(hs[j], name)];
  }

  lemma NoCalls(name: Option<Event>)
    ensures CallsOf([], name) == []
  {
  }

  lemma KeysAgree(s: Lists)
    requires ListsOk(s)
    ensures s.heads.Keys == s.registry.Keys == s.chains.Keys
  {
  }

  // Every registered event has a handler.
  lemma NoEmptyList(s: Lists, e: Event)
    requires ListsOk(s) && e in s.registry
    ensures s.registry[e] != []
  {
    assert ListOk(s, e);
  }

  lemma AllRemoved(reg: Registry)
    ensures Removed(reg, None, None, None) == map[]
  {
    forall e | e in reg
      ensures Survivors(reg[e], None, None) == []
    {
      NothingStays(reg, e, reg[e]);
    }
  }

  lemma NoneRemoved(reg: Registry, es: set<Event>, callback: Option<nat>, context: Option<nat>)
    ensures RemovedIn(reg, es - es, callback, context) == reg
  {
  }

  lemma OneMoreRemoved(reg: Registry, es: set<Event>, rest: set<Event>, r: Event,
                       callback: Option<nat>, context: Option<nat>)
    requires r in rest && rest <= es
    ensures RemovedIn(reg, es - (rest - {r}), callback, context)
      == RemovedFrom(RemovedIn(reg, es - rest, callback, context), r, callback, context)
  {
    hide Survivors;
    assert es - (rest - {r}) == (es - rest) + {r};
    OneMoreIn(reg, es - rest, r, callback, context);
  }

  lemma OneMoreIn(reg: Registry, es: set<Event>, r: Event, callback: Option<nat>, context: Option<nat>)
    requires r !in es
    ensures RemovedIn(reg, es + {r}, callback, context)
      == RemovedFrom(RemovedIn(reg, es, callback, context), r, callback, context)
  {
    hide Survivors;
  }

  lemma GrowsBy(mem: Memory, o: Node, cell: Cell)
    requires o !in mem
    ensures Grows(mem, mem[o := cell])
  {
  }

  lemma GrowsSelf(mem: Memory)
    ensures Grows(mem, mem)
  {
  }

  lemma GrowsOn(a: Memory, b: Memory, c: Memory)
    requires Grows(a, b) && Grows(b, c)
    ensures Grows(a, c)
  {
  }

  lemma StillThere(mem: Memory, mem': Memory, n: Node)
    requires Grows(mem, mem') && n in mem
    ensures n in mem' && mem'[n] == mem[n]
  {
  }

  // The node at position j of a list, and where its link leads.
  lemma Walk(mem: Memory, c: seq<Node>, head: Head, hs: seq<Handler>, j: nat)
    requires Carries(mem, c, head, hs) && j < |c|
    ensures |c| == |hs| && c[0] == head.next
    ensures c[j] in mem && mem[c[j]].handler == hs[j]
    ensures mem[c[j]].next == if j + 1 < |c| then c[j + 1] else head.tail
    ensures c[j] in c
  {
  }

  lemma NotEmpty(mem: Memory, c: seq<Node>, head: Head, hs: seq<Handler>)
    requires Carries(mem, c, head, hs)
    ensures |c| == |hs| > 0
  {
  }

  lemma TailNotIn(mem: Memory, c: seq<Node>, head: Head, hs: seq<Handler>)
    requires Carries(mem, c, head, hs) && head.tail !in mem
    ensures head.tail !in c && |c| > 0
  {
  }

  lemma NoList(s: Lists, r: Event)
    requires ListsOk(s) && r !in s.heads
    ensures r !in s.registry
  {
  }

  // The registry with a list put in for r, or with r left out when the list is empty.
  function WithList(reg: Registry, r: Event, hs: seq<Handler>): Registry {
    if hs == [] then reg - {r} else reg[r := hs]
  }

  function RemovedFrom(reg: Registry, r: Event, callback: Option<nat>, context: Option<nat>): Registry {
    if r in reg then WithList(reg, r, Survivors(reg[r], callback, context)) else reg
  }

  lemma SurvivorsStep(reg: Registry, r: Event, hs: seq<Handler>, j: nat, callback: Option<nat>, context: Option<nat>)
    requires j < |hs|
    ensures var before, after := Survivors(hs[..j], callback, context), Survivors(hs[..j + 1], callback, context);
            if Stays(hs[j], callback, context)
            then WithList(reg, r, after) == Appended(WithList(reg, r, before), r, hs[j])
            else after == before
  {
    assert hs[..j + 1][..j] == hs[..j];
  }

  lemma NoSurvivors(reg: Registry, r: Event, callback: Option<nat>, context: Option<nat>)
    requires r !in reg
    ensures WithList(reg, r, Survivors([], callback, context)) == reg
  {
    assert reg - {r} == reg;
  }

  lemma ReplacesList(reg: Registry, r: Event, hs: seq<Handler>)
    ensures WithList(reg - {r}, r, hs) == WithList(reg, r, hs)
  {
    assert (reg - {r}) - {r} == reg - {r};
    assert (reg - {r})[r := hs] == reg[r := hs];
  }

  lemma {:induction false} NothingStays(reg: Registry, r: Event, hs: seq<Handler>)
    ensures Survivors(hs, None, None) == [] && WithList(reg, r, Survivors(hs, None, None)) == reg - {r}
  {
    if hs != [] {
      NothingStays(reg, r, hs[..|hs| - 1]);
    }
  }
}
