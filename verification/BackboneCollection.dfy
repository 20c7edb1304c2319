/**
 Backbone's Collection: an array of models, its length, an index by client id and an index by id,
 and the models that the collection listens to, all kept up to date by every operation.
 */
module BackboneCollection {
  import opened Common

  // A property name.
  type Key = string

  // A model has a client id for good, and an id once it has been given one.
  class Model {
    const cid: Key
    var id: Option<Key>

    constructor (cid: Key, id: Option<Key>)
      ensures this.cid == cid && this.id == id
    {
      this.cid, this.id := cid, id;
    }
  }

  // The property name under which an index object files an id; a missing id is filed like any other.
  function KeyOf(id: Option<Key>): Key {
    if id.Some? then id.value else "undefined"
  }

  // What remove is asked for: a model, or a key that may be a client id or an id.
  datatype Ref = ByModel(model: Model) | ByKey(key: Key)

  // ---------- the indexes ----------

  predicate DistinctCids(ms: seq<Model>) {
    forall i, j :: 0 <= i < j < |ms| ==> ms[i].cid != ms[j].cid
  }

  ghost predicate CidsIndexed(byCid: map<Key, Model>, ms: seq<Model>) {
    && (forall m | m in ms :: m.cid in byCid && byCid[m.cid] == m)
    && (forall k | k in byCid :: byCid[k] in ms && byCid[k].cid == k)
  }

  // Every entry of the index by id is a member, filed under its own id or under that of a missing one.
  ghost predicate IdsFiled(byId: map<Key, Model>, ms: seq<Model>)
    reads ms
  {
    forall k | k in byId :: byId[k] in ms && KeyOf(byId[k].id) == k
  }

  // The index by id has every member that has an id, and no entry of a member without one.
  ghost predicate IdsComplete(byId: map<Key, Model>, ms: seq<Model>)
    reads ms
  {
    && (forall m | m in ms && m.id.Some? :: m.id.value in byId && byId[m.id.value] == m)
    && (forall k | k in byId :: byId[k] in ms && byId[k].id.Some?)
  }

  ghost predicate HeardOnce(heard: multiset<Model>, ms: seq<Model>) {
    (forall m | m in heard :: m in ms && heard[m] == 1) && (forall m | m in ms :: m in heard)
  }

  // All three agree with the members; if full is asked for, the index by id is complete.
  ghost predicate Agree(byCid: map<Key, Model>, byId: map<Key, Model>, heard: multiset<Model>, ms: seq<Model>, full: bool)
    reads ms
  {
    && CidsIndexed(byCid, ms) && HeardOnce(heard, ms) && IdsFiled(byId, ms)
    && (full ==> IdsComplete(byId, ms))
  }

  // ---------- add ----------

  function CidsOf(ms: seq<Model>): set<Key> {
    set m | m in ms :: m.cid
  }

  function KeysOf(ms: seq<Model>): set<Key>
    reads ms
  {
    set m | m in ms :: KeyOf(m.id)
  }

  // A model is turned away if its client id or its id is in use, in the collection or in the batch.
  predicate Taken(s: Model, kept: seq<Model>, cids: set<Key>, ids: set<Key>)
    reads s, kept
  {
    s.cid in CidsOf(kept) + cids || (s.id.Some? && s.id.value in KeysOf(kept) + ids)
  }

  // The models of a batch that a collection with these client ids and ids takes in.
  function Kept(batch: seq<Model>, cids: set<Key>, ids: set<Key>): (r: seq<Model>)
    reads batch
    ensures forall m | m in r :: m in batch
  {
    if batch == [] then []
    else
      var kept := Kept(batch[..|batch| - 1], cids, ids);
      var s := batch[|batch| - 1];
      assert s in batch && forall m | m in kept :: m in batch[..|batch| - 1] && m in batch;
      assert forall i :: 0 <= i < |kept| ==> kept[i] in kept && kept[i] in batch;
      if Taken(s, kept, cids, ids) then kept else kept + [s]
  }

  // No two models that are taken in share a client id or an id, and none shares one with a member.
  ghost predicate Apart(kept: seq<Model>, cids: set<Key>, ids: set<Key>)
    reads kept
  {
    && DistinctCids(kept)
    && (forall m | m in kept :: m.cid !in cids)
    && (forall m | m in kept && m.id.Some? :: m.id.value !in ids)
    && (forall i, j | 0 <= i < j < |kept| && kept[j].id.Some? :: KeyOf(kept[i].id) != kept[j].id.value)
  }

  lemma {:induction false} KeptAreApart(batch: seq<Model>, cids: set<Key>, ids: set<Key>)
    ensures Apart(Kept(batch, cids, ids), cids, ids)
  {
    if batch != [] {
      var kept := Kept(batch[..|batch| - 1], cids, ids);
      var s := batch[|batch| - 1];
      KeptAreApart(batch[..|batch| - 1], cids, ids);
      if !Taken(s, kept, cids, ids) {
        forall i | 0 <= i < |kept|
          ensures kept[i].cid != s.cid && (s.id.Some? ==> KeyOf(kept[i].id) != s.id.value)
        {
          assert kept[i].cid in CidsOf(kept) && KeyOf(kept[i].id) in KeysOf(kept);
        }
      }
    }
  }

  // Every model of the batch that stays out has a client id that the collection or a model that gets
  // in has too, or it has an id and the collection or a model that gets in is filed under it.
  lemma {:induction false} OthersAreTaken(batch: seq<Model>, cids: set<Key>, ids: set<Key>)
    ensures var kept := Kept(batch, cids, ids);
            forall m | m in batch && m !in kept ::
              || m.cid in cids || (exists k :: k in kept && k.cid == m.cid)
              || (m.id.Some? && (m.id.value in ids ||
                  exists k :: k in kept && (k.id == m.id || (k.id == None && m.id == Some("undefined")))))
  {
    if batch != [] {
      var front, s := batch[..|batch| - 1], batch[|batch| - 1];
      OthersAreTaken(front, cids, ids);
      var kept, all := Kept(front, cids, ids), Kept(batch, cids, ids);
      assert batch == front + [s];
      assert forall m | m in kept :: m in all;
      if Taken(s, kept, cids, ids) {
        assert all == kept;
        WhoTakes(s, kept, cids, ids);
      }
    }
  }

  lemma WhoTakes(s: Model, kept: seq<Model>, cids: set<Key>, ids: set<Key>)
    requires Taken(s, kept, cids, ids)
    ensures || s.cid in cids || (exists k :: k in kept && k.cid == s.cid)
            || (s.id.Some? && (s.id.value in ids ||
                exists k :: k in kept && (k.id == s.id || (k.id == None && s.id == Some("undefined")))))
  {
    if s.cid in CidsOf(kept) {
      var k :| k in kept && k.cid == s.cid;
    } else if s.cid !in cids && s.id.value !in ids {
      var k :| k in kept && KeyOf(k.id) == s.id.value;
    }
  }

  // A batch without such clashes comes in whole; models without an id never clash by id.
  lemma {:induction false} ApartBatchIsKept(batch: seq<Model>, cids: set<Key>, ids: set<Key>)
    requires forall i | 0 <= i < |batch| :: batch[i].cid !in cids && (batch[i].id.Some? ==> batch[i].id.value !in ids)
    requires forall i, j | 0 <= i < j < |batch| :: batch[i].cid != batch[j].cid
    requires forall i, j | 0 <= i < j < |batch| && batch[j].id.Some? ::
               batch[i].id != batch[j].id && (batch[i].id.Some? || batch[j].id.value != "undefined")
    ensures Kept(batch, cids, ids) == batch
  {
    if batch != [] {
      var front, s := batch[..|batch| - 1], batch[|batch| - 1];
      assert batch == front + [s];
      assert forall i | 0 <= i < |front| :: front[i] == batch[i];
      ApartBatchIsKept(front, cids, ids);
    }
  }

  // The elements of s at the positions ps are taken out, the last position first.
  function TakenOut<T>(s: seq<T>, ps: seq<nat>): seq<T>
    requires Positions(ps, |s|)
    decreases |ps|
  {
    if ps == [] then s
    else
      var p := ps[|ps| - 1];
      TakenOut(s[..p] + s[p + 1..], ps[..|ps| - 1])
  }

  // An increasing list of positions below n.
  predicate Positions(ps: seq<nat>, n: nat) {
    && (forall i, j :: 0 <= i < j < |ps| ==> ps[i] < ps[j])
    && (forall i :: 0 <= i < |ps| ==> ps[i] < n)
  }

  lemma {:induction false} TakenOutPush<T>(s: seq<T>, ps: seq<nat>, x: T)
    requires Positions(ps, |s|)
    ensures TakenOut(s + [x], ps) == TakenOut(s, ps) + [x]
    decreases |ps|
  {
    if ps != [] {
      var p := ps[|ps| - 1];
      assert (s + [x])[..p] + (s + [x])[p + 1..] == (s[..p] + s[p + 1..]) + [x];
      TakenOutPush(s[..p] + s[p + 1..], ps[..|ps| - 1], x);
    }
  }

  lemma TakenOutLast<T>(s: seq<T>, ps: seq<nat>, x: T)
    requires Positions(ps, |s|)
    ensures TakenOut(s + [x], ps + [|s|]) == TakenOut(s, ps)
  {
    var qs := ps + [|s|];
    assert qs[..|qs| - 1] == ps;
    assert (s + [x])[..|s|] + (s + [x])[|s| + 1..] == s;
  }

  // ---------- the array ----------

  // Where splice inserts: counted from the end if negative, and never past the end.
  function SpliceAt(at: int, n: nat): (i: nat)
    ensures i <= n
  {
    if at < 0 then (if at + n < 0 then 0 else at + n) else if at > n then n else at
  }

  function Spliced(ms: seq<Model>, i: nat, kept: seq<Model>): (r: seq<Model>)
    requires i <= |ms|
    ensures |r| == |ms| + |kept|
  {
    ms[..i] + kept + ms[i..]
  }

  lemma SplicedHas(ms: seq<Model>, i: nat, kept: seq<Model>)
    requires i <= |ms|
    ensures forall m :: m in Spliced(ms, i, kept) <==> m in ms + kept
  {
    assert ms == ms[..i] + ms[i..];
  }

  // ---------- remove ----------

  // What a reference leads to: first by client id, then by id.
  function Lookup(ref: Ref, byCid: map<Key, Model>, byId: map<Key, Model>): Option<Model>
    reads if ref.ByModel? then {ref.model} else {}
  {
    match ref
    case ByModel(m) =>
      if m.cid in byCid then Some(byCid[m.cid])
      else if m.id.Some? && m.id.value in byId then Some(byId[m.id.value])
      else None
    case ByKey(k) =>
      if k != "" && k in byCid then Some(byCid[k])
      else if k in byId then Some(byId[k])
      else None
  }

  // Where a reference leads when the indexes are complete: to the member with the client id asked
  // for, and only if there is none, to the member with the id asked for.
  lemma LookupFinds(ref: Ref, byCid: map<Key, Model>, byId: map<Key, Model>, heard: multiset<Model>, ms: seq<Model>)
    requires Agree(byCid, byId, heard, ms, true)
    ensures var r := Lookup(ref, byCid, byId);
            && (r.Some? ==> r.value in ms)
            && (ref.ByModel? ==>
                 && (forall m | m in ms && m.cid == ref.model.cid :: r == Some(m))
                 && ((forall m | m in ms :: m.cid != ref.model.cid) ==>
                      && (forall m | m in ms && ref.model.id.Some? && m.id == ref.model.id :: r == Some(m))
                      && (r.Some? ==> ref.model.id.Some? && r.value.id == ref.model.id)))
            && (ref.ByKey? ==>
                 && (forall m | m in ms && ref.key != "" && m.cid == ref.key :: r == Some(m))
                 && ((forall m | m in ms :: ref.key == "" || m.cid != ref.key) ==>
                      && (forall m | m in ms && m.id == Some(ref.key) :: r == Some(m))
                      && (r.Some? ==> r.value.id == Some(ref.key))))
  {
  }

  function Dropped(ms: seq<Model>, i: nat): seq<Model>
    requires i < |ms|
  {
    ms[..i] + ms[i + 1..]
  }

  lemma DroppedHas(ms: seq<Model>, i: nat)
    requires i < |ms| && DistinctCids(ms)
    ensures DistinctCids(Dropped(ms, i)) && |Dropped(ms, i)| == |ms| - 1
    ensures forall m :: m in Dropped(ms, i) <==> m in ms && m != ms[i]
  {
    var r := Dropped(ms, i);
    forall k | 0 <= k < |r|
      ensures r[k] in ms && r[k] != ms[i]
    {
      assert r[k] == ms[if k < i then k else k + 1];
    }
    forall m | m in ms && m != ms[i]
      ensures m in r
    {
      var k :| 0 <= k < |ms| && ms[k] == m;
      assert m == r[if k < i then k else k - 1];
    }
  }

  lemma OneLessAgrees(byCid: map<Key, Model>, byId: map<Key, Model>, heard: multiset<Model>, ms: seq<Model>, i: nat)
    requires i < |ms| && DistinctCids(ms) && Agree(byCid, byId, heard, ms, false)
    ensures Agree(byCid - {ms[i].cid}, byId - {KeyOf(ms[i].id)}, heard[ms[i] := 0], Dropped(ms, i), false)
  {
    DroppedHas(ms, i);
    DifferentCids(ms, ms[i]);
  }

  lemma DifferentCids(ms: seq<Model>, a: Model)
    requires DistinctCids(ms) && a in ms
    ensures forall m | m in ms && m != a :: m.cid != a.cid
  {
  }

  // Which ids the index still has, when entries for a missing id have been deleted or not.
  ghost predicate IdsMissing(byId: map<Key, Model>, ms: seq<Model>, lost: bool)
    reads ms
  {
    && (forall m | m in ms && m.id.Some? ::
          if lost && m.id == Some(KeyOf(None)) then m.id.value !in byId
          else m.id.value in byId && byId[m.id.value] == m)
    && (forall k | k in byId :: byId[k] in ms && byId[k].id.Some?)
  }

  lemma OneLessMissing(byCid: map<Key, Model>, byId: map<Key, Model>, heard: multiset<Model>, ms: seq<Model>,
                       i: nat, lost: bool)
    requires i < |ms| && DistinctCids(ms) && Agree(byCid, byId, heard, ms, false)
    requires IdsMissing(byId, ms, lost)
    ensures IdsMissing(byId - {KeyOf(ms[i].id)}, Dropped(ms, i), lost || ms[i].id.None?)
  {
    DroppedHas(ms, i);
  }

  // Removing one member keeps the index by id complete exactly when the member had an id, or no
  // id is spelled like the name under which a missing id is filed.
  lemma RemovalKeepsIds(byCid: map<Key, Model>, byId: map<Key, Model>, heard: multiset<Model>, ms: seq<Model>, i: nat)
    requires i < |ms| && DistinctCids(ms) && Agree(byCid, byId, heard, ms, true)
    ensures IdsComplete(byId - {KeyOf(ms[i].id)}, Dropped(ms, i))
      <==> ms[i].id.Some? || KeyOf(None) !in byId
  {
    DroppedHas(ms, i);
    if ms[i].id.None? && KeyOf(None) in byId {
      assert byId[KeyOf(None)] in Dropped(ms, i);
    }
  }

  // The models removed so far, and the indexes without them.
  datatype Removal = Removal(gone: seq<Model>, byCid: map<Key, Model>, byId: map<Key, Model>)

  // The models that a list of references leads to, each looked up after the ones before it are gone.
  function Removals(refs: seq<Ref>, byCid: map<Key, Model>, byId: map<Key, Model>): (r: Removal)
    reads ModelsOf(refs), Filed(byCid, byId)
    ensures Filed(r.byCid, r.byId) <= Filed(byCid, byId)
  {
    if refs == [] then Removal([], byCid, byId)
    else
      assert refs == refs[..|refs| - 1] + [refs[|refs| - 1]];
      var r := Removals(refs[..|refs| - 1], byCid, byId);
      var a := Lookup(refs[|refs| - 1], r.byCid, r.byId);
      if a.None? then r
      else
        assert a.value in Filed(r.byCid, r.byId);
        Removal(r.gone + [a.value], r.byCid - {a.value.cid}, r.byId - {KeyOf(a.value.id)})
  }

  lemma RemovalStep(refs: seq<Ref>, n: nat, byCid: map<Key, Model>, byId: map<Key, Model>)
    requires n < |refs|
    ensures var r := Removals(refs[..n], byCid, byId);
            var a := Lookup(refs[n], r.byCid, r.byId);
            Removals(refs[..n + 1], byCid, byId) ==
              if a.None? then r
              else Removal(r.gone + [a.value], r.byCid - {a.value.cid}, r.byId - {KeyOf(a.value.id)})
  {
    assert refs[..n + 1][..n] == refs[..n];
  }

  lemma NoRemovals(ms: seq<Model>, byCid: map<Key, Model>, byId: map<Key, Model>)
    ensures Removals([], byCid, byId) == Removal([], byCid, byId) && Remaining(ms, []) == ms
  {
    RemainingHas(ms, []);
  }

  function Filed(byCid: map<Key, Model>, byId: map<Key, Model>): set<Model> {
    byCid.Values + byId.Values
  }

  function ModelsOf(refs: seq<Ref>): set<Model> {
    set ref | ref in refs && ref.ByModel? :: ref.model
  }

  // What is left of ms, in order.
  function Remaining(ms: seq<Model>, gone: seq<Model>): seq<Model> {
    if ms == [] then []
    else Remaining(ms[..|ms| - 1], gone) + if ms[|ms| - 1] in gone then [] else [ms[|ms| - 1]]
  }

  lemma {:induction false} RemainingHas(ms: seq<Model>, gone: seq<Model>)
    ensures forall m :: m in Remaining(ms, gone) <==> m in ms && m !in gone
    ensures gone == [] ==> Remaining(ms, gone) == ms
  {
    if ms != [] {
      RemainingHas(ms[..|ms| - 1], gone);
      assert ms == ms[..|ms| - 1] + [ms[|ms| - 1]];
    }
  }

  lemma DroppedPush(ms: seq<Model>, more: seq<Model>, i: nat)
    requires i < |ms|
    ensures Dropped(ms + more, i) == Dropped(ms, i) + more
  {
  }

  lemma LastIsOther(ms: seq<Model>)
    requires DistinctCids(ms) && |ms| > 0
    ensures ms[|ms| - 1] !in ms[..|ms| - 1] && DistinctCids(ms[..|ms| - 1])
  {
  }

  lemma DropMember(byCid: map<Key, Model>, byId: map<Key, Model>, ms: seq<Model>, ms': seq<Model>, a: Model)
    requires CidsIndexed(byCid, ms) && IdsFiled(byId, ms) && a in ms
    requires forall m :: m in ms' <==> m in ms && m != a
    ensures CidsIndexed(byCid - {a.cid}, ms') && IdsFiled(byId - {KeyOf(a.id)}, ms')
    ensures forall m | m in ms' :: m.cid != a.cid
  {
  }

  // After removing a list of references: no member is left with the client id of a model that was
  // given, and none with a given key as its client id; and only members are gone that have the client
  // id or the id of a model that was given, or a given key as client id or id.
  ghost predicate AsAsked(refs: seq<Ref>, gone: seq<Model>, left: seq<Model>, ms: seq<Model>)
    reads gone, ModelsOf(refs)
  {
    && (forall n, m | 0 <= n < |refs| && m in left :: !Asks(refs[n], m))
    && (forall a | a in gone :: a in ms && MeantBySome(refs, a))
  }

  predicate Asks(ref: Ref, m: Model) {
    match ref
    case ByModel(o) => m.cid == o.cid
    case ByKey(k) => k != "" && m.cid == k
  }

  ghost predicate MeantBySome(refs: seq<Ref>, a: Model)
    reads a, ModelsOf(refs)
  {
    exists ref | ref in refs :: MayMean(ref, a)
  }

  lemma AskedOneMore(front: seq<Ref>, ref: Ref, gone: seq<Model>, left: seq<Model>, ms: seq<Model>)
    requires AsAsked(front, gone, left, ms) && forall m | m in left :: !Asks(ref, m)
    ensures AsAsked(front + [ref], gone, left, ms)
  {
    hide Asks, MayMean;
    var refs := front + [ref];
    forall a | a in gone
      ensures MeantBySome(refs, a)
    {
      var r :| r in front && MayMean(r, a);
      assert r in refs;
    }
  }

  lemma GoneOneMore(front: seq<Ref>, ref: Ref, gone: seq<Model>, a: Model, left: seq<Model>, left': seq<Model>, ms: seq<Model>)
    requires AsAsked(front, gone, left, ms) && MayMean(ref, a) && a in ms
    requires forall m | m in left' :: m in left && !Asks(ref, m)
    ensures AsAsked(front + [ref], gone + [a], left', ms)
  {
    hide Asks, MayMean;
    var refs := front + [ref];
    assert ref in refs;
    forall b | b in gone
      ensures MeantBySome(refs, b)
    {
      var r :| r in front && MayMean(r, b);
      assert r in refs;
    }
  }

  lemma {:induction false} RemovalsPlainly(refs: seq<Ref>, byCid: map<Key, Model>, byId: map<Key, Model>, ms: seq<Model>)
    requires CidsIndexed(byCid, ms) && IdsFiled(byId, ms)
    ensures var r := Removals(refs, byCid, byId);
            && CidsIndexed(r.byCid, Remaining(ms, r.gone)) && IdsFiled(r.byId, Remaining(ms, r.gone))
            && AsAsked(refs, r.gone, Remaining(ms, r.gone), ms)
  {
    if refs == [] {
      RemainingHas(ms, []);
    } else {
      hide CidsIndexed, IdsFiled, AsAsked, Lookup, Remaining, MayMean, Asks;
      var front, ref := refs[..|refs| - 1], refs[|refs| - 1];
      assert refs == front + [ref];
      RemovalsPlainly(front, byCid, byId, ms);
      var r := Removals(front, byCid, byId);
      var a := Lookup(ref, r.byCid, r.byId);
      var left := Remaining(ms, r.gone);
      RemainingHas(ms, r.gone);
      LookupMeans(ref, r.byCid, r.byId, left);
      if a.Some? {
        var gone := r.gone + [a.value];
        RemainingHas(ms, gone);
        DropMember(r.byCid, r.byId, left, Remaining(ms, gone), a.value);
        GoneOneMore(front, ref, r.gone, a.value, left, Remaining(ms, gone), ms);
      } else {
        AskedOneMore(front, ref, r.gone, left, ms);
      }
    }
  }

  // A reference can only mean a model with its client id or id, or one of which it is one of the two.
  predicate MayMean(ref: Ref, m: Model)
    reads m, if ref.ByModel? then {ref.model} else {}
  {
    match ref
    case ByModel(o) => o.cid == m.cid || KeyOf(m.id) == KeyOf(o.id)
    case ByKey(k) => m.cid == k || KeyOf(m.id) == k
  }

  lemma LookupMeans(ref: Ref, byCid: map<Key, Model>, byId: map<Key, Model>, ms: seq<Model>)
    requires CidsIndexed(byCid, ms) && IdsFiled(byId, ms)
    ensures var a := Lookup(ref, byCid, byId);
            && (a.Some? ==> a.value in ms && MayMean(ref, a.value))
            && (forall m | m in ms && Asks(ref, m) :: a == Some(m))
  {
  }

  lemma {:induction false} OneMoreGone(ms: seq<Model>, gone: seq<Model>, i: nat)
    requires DistinctCids(ms) && i < |Remaining(ms, gone)|
    ensures Remaining(ms, gone + [Remaining(ms, gone)[i]]) == Dropped(Remaining(ms, gone), i)
  {
    var init, last := ms[..|ms| - 1], ms[|ms| - 1];
    var left, a := Remaining(init, gone), Remaining(ms, gone)[i];
    RemainingHas(init, gone);
    LastIsOther(ms);
    hide DistinctCids;
    if i == |left| {
      assert a == last && Dropped(left + [last], i) == left;
      SameRemaining(init, gone, a);
    } else {
      assert a == left[i] && a in left;
      OneMoreGone(init, gone, i);
      DroppedPush(left, if last in gone then [] else [last], i);
      assert last in gone + [a] <==> last in gone;
    }
  }

  lemma {:induction false} SameRemaining(ms: seq<Model>, gone: seq<Model>, a: Model)
    requires a !in ms
    ensures Remaining(ms, gone + [a]) == Remaining(ms, gone)
  {
    if ms != [] {
      SameRemaining(ms[..|ms| - 1], gone, a);
      assert ms == ms[..|ms| - 1] + [ms[|ms| - 1]];
    }
  }

  // Where the new models stand: at the asked position, at the end if none is asked for or there are
  // fewer models, counted from the end if it is negative, and at the start if that is out of reach.
  lemma InsertPlainly(ms: seq<Model>, at: Option<int>, kept: seq<Model>)
    ensures var r := Spliced(ms, InsertAt(at, |ms|), kept);
            && (at == None || at.value > |ms| ==> r == ms + kept)
            && (at.Some? && 0 <= at.value <= |ms| ==> r == ms[..at.value] + kept + ms[at.value..])
            && (at.Some? && -|ms| <= at.value < 0 ==> r == ms[..|ms| + at.value] + kept + ms[|ms| + at.value..])
            && (at.Some? && at.value < -|ms| ==> r == kept + ms)
  {
    assert ms[..|ms|] == ms && ms[|ms|..] == [] && ms[..0] == [] && ms[0..] == ms;
  }

  lemma {:induction false} RangePlainly(a: nat, b: nat)
    requires a <= b
    ensures |Range(a, b)| == b - a && forall k | 0 <= k < b - a :: Range(a, b)[k] == a + k
  {
    if a < b {
      RangePlainly(a, b - 1);
    }
  }

  lemma SplicedIntoNone(kept: seq<Model>)
    ensures Spliced([], 0, kept) == kept
  {
  }

  // The numbers from a up to b.
  function Range(a: nat, b: nat): seq<nat> {
    if b <= a then [] else Range(a, b - 1) + [b - 1]
  }

  // ---------- one model more ----------

  lemma SameMembers(byCid: map<Key, Model>, byId: map<Key, Model>, heard: multiset<Model>,
                    ms: seq<Model>, ms': seq<Model>, full: bool)
    requires Agree(byCid, byId, heard, ms, full)
    requires forall m :: m in ms' <==> m in ms
    ensures Agree(byCid, byId, heard, ms', full)
  {
  }

  // The index by id with one model more.
  function WithId(byId: map<Key, Model>, s: Model): map<Key, Model>
    reads s
  {
    if s.id.Some? then byId[s.id.value := s] else byId
  }

  lemma IdsOneMore(byId: map<Key, Model>, ms: seq<Model>, s: Model)
    requires IdsFiled(byId, ms) && (s.id.Some? ==> s.id.value !in byId)
    ensures IdsFiled(WithId(byId, s), ms + [s])
    ensures IdsComplete(byId, ms) ==> IdsComplete(WithId(byId, s), ms + [s])
  {
  }

  lemma OneMoreAgrees(byCid: map<Key, Model>, byId: map<Key, Model>, heard: multiset<Model>,
                      ms: seq<Model>, full: bool, s: Model)
    requires Agree(byCid, byId, heard, ms, full)
    requires s.cid !in byCid && (s.id.Some? ==> s.id.value !in byId)
    ensures Agree(byCid[s.cid := s], WithId(byId, s), heard + multiset{s}, ms + [s], full)
  {
    IdsOneMore(byId, ms, s);
    assert s !in ms;
  }

  class Collection {
    var length: int
    var models: seq<Model>
    var byId: map<Key, Model>
    var byCid: map<Key, Model>
    // The models with which this collection's handler is registered, once for each registration.
    var heard: multiset<Model>

    ghost predicate Valid()
      reads this, models
    {
      length == |models| && DistinctCids(models) && Agree(byCid, byId, heard, models, false)
    }

    ghost predicate Complete()
      reads this, models
    {
      IdsComplete(byId, models)
    }

    constructor ()
      ensures Valid() && Complete() && models == []
    {
      length, models, byId, byCid, heard := 0, [], map[], map[], multiset{};
    }

    // The first loops of add: the positions of the models to turn away, and the rest of the batch.
    method Filter(batch: seq<Model>) returns (kept: seq<Model>, c: map<Key, Model>)
      ensures kept == Kept(batch, byCid.Keys, byId.Keys) && c.Keys == CidsOf(kept)
    {
      hide Kept, TakenOut, CidsOf, KeysOf;
      KeptNone(byCid.Keys, byId.Keys);
      ghost var cids, ids := byCid.Keys, byId.Keys;
      c := map[];
      var d: map<Key, Model> := map[];
      var h: seq<nat> := [];
      var n := 0;
      while n < |batch|
        invariant 0 <= n <= |batch| && Positions(h, n)
        invariant TakenOut(batch[..n], h) == Kept(batch[..n], cids, ids)
        invariant c.Keys == CidsOf(Kept(batch[..n], cids, ids)) && d.Keys == KeysOf(Kept(batch[..n], cids, ids))
      {
        var s := batch[n];
        ghost var kept := Kept(batch[..n], cids, ids);
        KeptStep(batch, n, cids, ids);
        assert batch[..n + 1] == batch[..n] + [s];
        if s.cid in c || s.cid in byCid || (s.id.Some? && (s.id.value in d || s.id.value in byId)) {
          TakenOutLast(batch[..n], h, s);
          h := h + [n];
        } else {
          TakenOutPush(batch[..n], h, s);
          KeysOneMore(kept, s);
          c := c[s.cid := s];
          d := d[KeyOf(s.id) := s];
        }
        n := n + 1;
      }
      assert batch[..n] == batch;
      kept := batch;
      n := |h|;
      assert h[..n] == h;
      while n > 0
        invariant 0 <= n <= |h| && Positions(h[..n], |kept|)
        invariant TakenOut(kept, h[..n]) == Kept(batch, cids, ids)
      {
        n := n - 1;
        TakeOutStep(kept, h, n);
        kept := kept[..h[n]] + kept[h[n] + 1..];
      }
      TakeOutNone(kept, h[..n]);
    }

    // The loop of add that listens to the new models and puts them into the indexes.
    method Register(kept: seq<Model>, ghost full: bool)
      requires Agree(byCid, byId, heard, models, full) && Apart(kept, byCid.Keys, byId.Keys)
      modifies this`byId, this`byCid, this`heard
      ensures Agree(byCid, byId, heard, models + kept, full)
    {
      hide Agree, Apart, CidsIndexed, FiledWithin, WithId;
      FiledAtStart(byId, kept);
      AgreeMeans(byCid, byId, heard, models);
      ghost var ms, byCid0, ids := models, byCid, byId.Keys;
      var n := 0;
      assert ms + kept[..0] == ms;
      while n < |kept|
        invariant 0 <= n <= |kept|
        invariant Agree(byCid, byId, heard, ms + kept[..n], full)
        invariant FiledWithin(byId, ids, kept[..n])
      {
        var s := kept[n];
        NextIsFree(ms, kept, n, byCid0, ids, byCid, byId, heard, full);
        OneMoreAgrees(byCid, byId, heard, ms + kept[..n], full, s);
        OneFurther(ms, kept, n);
        var byCid', byId', heard' := byCid[s.cid := s], WithId(byId, s), heard + multiset{s};
        KeysGrow(byId, ids, kept, n);
        heard, byCid, byId := heard', byCid', byId';
        n := n + 1;
      }
      assert kept[..n] == kept;
    }

    // The result is the positions at which the event "add" is raised.
    method Add(batch: seq<Model>, at: Option<int>, silent: bool) returns (added: seq<nat>)
      requires Valid()
      modifies this
      ensures Valid() && (old(Complete()) ==> Complete())
      ensures var i, kept := InsertAt(at, |old(models)|), Kept(batch, old(byCid).Keys, old(byId).Keys);
              models == Spliced(old(models), i, kept) && added == if silent then [] else Range(i, i + |kept|)
    {
      hide Agree, CidsIndexed, IdsComplete, Kept, Spliced, Apart, CidsOf;
      AgreeMeans(byCid, byId, heard, models);
      var kept, c := Filter(batch);
      ghost var ms, ids, full := models, byId.Keys, Complete();
      KeptAreApart(batch, byCid.Keys, byId.Keys);
      Register(kept, full);
      length := length + |kept|;
      var i := if at.Some? then SpliceAt(at.value, |models|) else |models|;
      models := Spliced(models, i, kept);
      SplicedHas(ms, i, kept);
      SameMembers(byCid, byId, heard, ms + kept, models, full);
      AgreeMeans(byCid, byId, heard, models);
      SplicedIsDistinct(ms, kept, i, old(byCid), ids);
      added := [];
      if !silent {
        added := RaiseAdd(c, ms, i, kept, old(byCid), ids);
      }
    }

    // The last loop of add.
    method RaiseAdd(c: map<Key, Model>, ghost ms: seq<Model>, ghost i: nat, ghost kept: seq<Model>,
                    ghost byCid0: map<Key, Model>, ghost ids: set<Key>)
      returns (added: seq<nat>)
      requires i <= |ms| && models == Spliced(ms, i, kept) && c.Keys == CidsOf(kept)
      requires CidsIndexed(byCid0, ms) && Apart(kept, byCid0.Keys, ids)
      ensures added == Range(i, i + |kept|)
    {
      hide CidsIndexed, Apart, CidsOf, Spliced;
      added := [];
      var n := 0;
      while n < |models|
        invariant 0 <= n <= |models|
        invariant added == Range(i, if n < i + |kept| then n else i + |kept|)
      {
        NewOrOld(ms, kept, i, byCid0, ids, n);
        if models[n].cid in c {
          added := added + [n];
        }
        n := n + 1;
      }
    }

    method Find(ref: Ref) returns (a: Option<Model>)
      ensures a == Lookup(ref, byCid, byId)
    {
      match ref {
        case ByModel(m) =>
          a := if m.cid in byCid then Some(byCid[m.cid]) else None;
          if a == None && m.id.Some? {
            a := if m.id.value in byId then Some(byId[m.id.value]) else None;
          }
        case ByKey(k) =>
          a := if k != "" && k in byCid then Some(byCid[k]) else None;
          if a == None {
            a := if k in byId then Some(byId[k]) else None;
          }
      }
    }

    method IndexOf(a: Model) returns (i: nat)
      requires a in models
      ensures i < |models| && models[i] == a
    {
      i := 0;
      while models[i] != a
        invariant i < |models| && a !in models[..i]
        decreases |models| - i
      {
        assert models[..i + 1] == models[..i] + [models[i]];
        i := i + 1;
      }
    }

    // One round of remove; a is the model removed, and i is where the event "remove" says it was.
    method RemoveOne(ref: Ref) returns (a: Option<Model>, i: nat)
      requires Valid()
      modifies this
      ensures Valid() && a == old(Lookup(ref, byCid, byId))
      ensures a.None? ==> models == old(models) && byId == old(byId) && byCid == old(byCid)
      ensures a.Some? ==>
        && i < |old(models)| && a.value == old(models)[i] && models == Dropped(old(models), i)
        && byId == old(byId - {KeyOf(a.value.id)}) && byCid == old(byCid) - {a.value.cid}
    {
      hide Agree, Lookup, Dropped, DistinctCids;
      a := Find(ref);
      i := 0;
      FoundIsMember(ref, byCid, byId, heard, models);
      if a.Some? {
        i := IndexOf(a.value);
        OneLessAgrees(byCid, byId, heard, models, i);
        DroppedHas(models, i);
        Update(Dropped(models, i), byId - {KeyOf(a.value.id)}, byCid - {a.value.cid}, heard[a.value := 0]);
      }
    }

    // The assignments of one round of remove.
    method Update(models': seq<Model>, byId': map<Key, Model>, byCid': map<Key, Model>, heard': multiset<Model>)
      requires length - 1 == |models'| && DistinctCids(models') && Agree(byCid', byId', heard', models', false)
      modifies this
      ensures Valid() && models == models' && byId == byId' && byCid == byCid' && heard == heard'
    {
      hide Agree, DistinctCids;
      byId, byCid, models, heard, length := byId', byCid', models', heard', length - 1;
    }

    // The result are the models for which the event "remove" is raised.
    method Remove(refs: seq<Ref>) returns (removed: seq<Model>)
      requires Valid()
      modifies this
      ensures Valid() && removed == old(Removals(refs, byCid, byId)).gone && models == Remaining(old(models), removed)
      ensures old(Complete()) ==>
        (Complete() <==> (forall m | m in models :: m.id != Some(KeyOf(None))) || forall m | m in removed :: m.id.Some?)
    {
      hide Agree, Dropped, Lookup, DistinctCids, Removals, Remaining, IdsMissing;
      ghost var lost := false;
      removed := [];
      var n := 0;
      NoRemovals(models, byCid, byId);
      CompleteOnly(byCid, byId, heard, models, removed, lost);
      assert refs[..0] == [];
      forall k | 0 <= k < |refs| {
        RemovalStep(refs, k, byCid, byId);
      }
      while n < |refs|
        invariant 0 <= n <= |refs| && Valid()
        invariant Removal(removed, byCid, byId) == old(Removals(refs[..n], byCid, byId))
        invariant models == Remaining(old(models), removed)
        invariant old(Complete()) ==> IdsMissing(byId, models, lost)
        invariant lost <==> exists m | m in removed :: m.id.None?
      {
        ghost var byId0, byCid0, heard0, ms := byId, byCid, heard, models;
        ghost var b := old(Lookup(refs[n], byCid0, byId0));
        assert old(Removals(refs[..n + 1], byCid, byId)) == if b.None? then Removal(removed, byCid, byId)
          else Removal(removed + [b.value], byCid0 - {b.value.cid}, old(byId0 - {KeyOf(b.value.id)}));
        assert b == Lookup(refs[n], byCid, byId);
        var a, i := RemoveOne(refs[n]);
        assert a == b;
        assert a.Some? ==> old(KeyOf(b.value.id)) == KeyOf(b.value.id);
        if a.Some? {
          OneMoreGone(old(models), removed, i);
          if old(Complete()) {
            OneLessMissing(byCid0, byId0, heard0, ms, i, lost);
          }
          lost := lost || a.value.id.None?;
          removed := removed + [a.value];
        }
        n := n + 1;
      }
      assert refs[..n] == refs;
      CompleteOnly(byCid, byId, heard, models, removed, lost);
    }

    // All models go, without an event for each, and the batch comes in.
    method Reset(batch: seq<Model>)
      requires Valid()
      modifies this
      ensures Valid() && Complete() && models == Kept(batch, {}, {})
    {
      hide Agree, Kept, Spliced, DistinctCids, IdsComplete;
      HeardAreMembers(byCid, byId, heard, models);
      var n := 0;
      while n < |models|
        invariant 0 <= n <= |models| && models == old(models)
        invariant forall m | m in heard :: m in models[n..]
      {
        heard := heard[models[n] := 0];
        n := n + 1;
      }
      assert heard == multiset{};
      length, models, byId, byCid := 0, [], map[], map[];
      NoneAgree();
      assert byCid.Keys == {} && byId.Keys == {};
      SplicedIntoNone(Kept(batch, {}, {}));
      var added := Add(batch, None, true);
    }

    // A model gets another id; the collection hears of it if it listens to the model.
    method SetId(m: Model, id: Option<Key>)
      requires Valid()
      modifies this`byId, m`id
      ensures Valid() && m.id == id
      ensures byId == if old(m.id) == id || m !in models then old(byId)
                      else (old(byId) - {KeyOf(old(m.id))})[KeyOf(id) := m]
      ensures old(Complete()) ==> (Complete() <==> SafeId(m, models, old(byId), old(m.id), id))
    {
      hide IdsFiled, IdsComplete, SafeId, HeardOnce, CidsIndexed;
      HeardIsMember(byCid, byId, heard, models);
      var previous := m.id;
      ghost var byId0 := byId;
      IdsNow(byId, models, m);
      m.id := id;
      if previous != id && m in heard {
        byId := (byId - {KeyOf(previous)})[KeyOf(m.id) := m];
      }
      IdsThen(byId0, byId, models, m, previous);
    }
  }

  // A new id does no harm to the indexes: it is an id, no other member uses it, and a member that
  // had none does not take the entry of a member whose id is spelled like a missing one.
  predicate SafeId(m: Model, ms: seq<Model>, byId: map<Key, Model>, previous: Option<Key>, id: Option<Key>) {
    m in ms && id != previous ==>
      id.Some? && id.value !in byId && (previous.Some? || KeyOf(None) !in byId)
  }

  // The id of x when m still had the id p.
  function IdBefore(x: Model, m: Model, p: Option<Key>): Option<Key>
    reads x
  {
    if x == m then p else x.id
  }

  ghost predicate FiledWas(byId: map<Key, Model>, ms: seq<Model>, m: Model, p: Option<Key>)
    reads ms
  {
    forall k | k in byId :: byId[k] in ms && KeyOf(IdBefore(byId[k], m, p)) == k
  }

  // The index by id was complete when m still had the id p.
  ghost predicate IdsRight(byId: map<Key, Model>, ms: seq<Model>, m: Model, p: Option<Key>)
    reads ms
  {
    && (forall k | k in byId :: byId[k] in ms && IdBefore(byId[k], m, p) == Some(k))
    && (forall x | x in ms && IdBefore(x, m, p).Some? ::
          IdBefore(x, m, p).value in byId && byId[IdBefore(x, m, p).value] == x)
  }

  lemma IdsNow(byId: map<Key, Model>, ms: seq<Model>, m: Model)
    ensures FiledWas(byId, ms, m, m.id) <==> IdsFiled(byId, ms)
    ensures IdsRight(byId, ms, m, m.id) <==> IdsFiled(byId, ms) && IdsComplete(byId, ms)
  {
  }

  lemma FiledChange(byId: map<Key, Model>, ms: seq<Model>, m: Model, p: Option<Key>)
    requires FiledWas(byId, ms, m, p)
    ensures m !in ms || p == m.id ==> IdsFiled(byId, ms)
    ensures m in ms && p != m.id ==> IdsFiled((byId - {KeyOf(p)})[KeyOf(m.id) := m], ms)
  {
  }

  lemma NoIdChange(byId: map<Key, Model>, ms: seq<Model>, m: Model, p: Option<Key>)
    requires IdsRight(byId, ms, m, p) && (m !in ms || p == m.id)
    ensures IdsComplete(byId, ms)
  {
  }

  // The two assignments to the index keep it complete exactly when the new id is safe.
  lemma IdChange(byId: map<Key, Model>, ms: seq<Model>, m: Model, p: Option<Key>)
    requires IdsRight(byId, ms, m, p) && m in ms && p != m.id
    ensures var byId' := (byId - {KeyOf(p)})[KeyOf(m.id) := m];
            IdsComplete(byId', ms) <==> SafeId(m, ms, byId, p, m.id)
  {
    var byId' := (byId - {KeyOf(p)})[KeyOf(m.id) := m];
    if m.id.Some? && m.id.value in byId {
      var x := byId[m.id.value];
      assert x in ms && x != m && x.id == m.id;
      assert !IdsComplete(byId', ms);
    } else if m.id.Some? && p.None? && KeyOf(None) in byId {
      var x := byId[KeyOf(None)];
      assert x in ms && x != m && x.id == Some(KeyOf(None));
      assert !IdsComplete(byId', ms);
    } else if m.id.None? {
      assert byId'[KeyOf(None)] == m;
    }
  }

  lemma IdsThen(byId: map<Key, Model>, byId': map<Key, Model>, ms: seq<Model>, m: Model, p: Option<Key>)
    requires FiledWas(byId, ms, m, p)
    requires byId' == if m in ms && p != m.id then (byId - {KeyOf(p)})[KeyOf(m.id) := m] else byId
    ensures IdsFiled(byId', ms)
    ensures IdsRight(byId, ms, m, p) ==> (IdsComplete(byId', ms) <==> SafeId(m, ms, byId, p, m.id))
  {
    hide IdsFiled, IdsComplete, IdsRight, FiledWas;
    FiledChange(byId, ms, m, p);
    if IdsRight(byId, ms, m, p) {
      if m in ms && p != m.id {
        IdChange(byId, ms, m, p);
      } else {
        NoIdChange(byId, ms, m, p);
      }
    }
  }

  lemma FoundIsMember(ref: Ref, byCid: map<Key, Model>, byId: map<Key, Model>, heard: multiset<Model>, ms: seq<Model>)
    requires Agree(byCid, byId, heard, ms, false)
    ensures var r := Lookup(ref, byCid, byId); r.Some? ==> r.value in ms
  {
  }

  lemma HeardIsMember(byCid: map<Key, Model>, byId: map<Key, Model>, heard: multiset<Model>, ms: seq<Model>)
    requires Agree(byCid, byId, heard, ms, false)
    ensures forall m | m in ms :: m in heard
    ensures forall m | m in heard :: m in ms
  {
  }

  lemma HeardAreMembers(byCid: map<Key, Model>, byId: map<Key, Model>, heard: multiset<Model>, ms: seq<Model>)
    requires Agree(byCid, byId, heard, ms, false)
    ensures forall m | m in heard :: m in ms[0..]
  {
  }

  lemma NoneAgree()
    ensures Agree(map[], map[], multiset{}, [], true) && Agree(map[], map[], multiset{}, [], false) && DistinctCids([])
    ensures IdsComplete(map[], [])
  {
  }

  lemma CompleteOnly(byCid: map<Key, Model>, byId: map<Key, Model>, heard: multiset<Model>, ms: seq<Model>,
                     removed: seq<Model>, lost: bool)
    requires Agree(byCid, byId, heard, ms, false)
    ensures !lost ==> (IdsMissing(byId, ms, lost) <==> IdsComplete(byId, ms))
    ensures lost && IdsMissing(byId, ms, lost) ==>
      (IdsComplete(byId, ms) <==> forall m | m in ms :: m.id != Some(KeyOf(None)))
  {
  }

  lemma AgreeMeans(byCid: map<Key, Model>, byId: map<Key, Model>, heard: multiset<Model>, ms: seq<Model>)
    ensures forall full :: Agree(byCid, byId, heard, ms, full) <==>
      Agree(byCid, byId, heard, ms, false) && (full ==> IdsComplete(byId, ms))
    ensures forall full :: Agree(byCid, byId, heard, ms, full) ==> CidsIndexed(byCid, ms)
  {
  }

  ghost predicate FiledWithin(byId: map<Key, Model>, ids: set<Key>, kept: seq<Model>)
    reads kept
  {
    byId.Keys <= ids + KeysOf(kept)
  }

  lemma FiledAtStart(byId: map<Key, Model>, kept: seq<Model>)
    ensures FiledWithin(byId, byId.Keys, kept[..0])
  {
  }

  lemma KeysGrow(byId: map<Key, Model>, ids: set<Key>, kept: seq<Model>, n: nat)
    requires n < |kept| && FiledWithin(byId, ids, kept[..n])
    ensures FiledWithin(WithId(byId, kept[n]), ids, kept[..n + 1])
  {
    KeysOneMore(kept[..n], kept[n]);
    OneFurther([], kept, n);
  }

  lemma OneFurther(ms: seq<Model>, kept: seq<Model>, n: nat)
    requires n < |kept|
    ensures kept[..n + 1] == kept[..n] + [kept[n]]
    ensures ms + kept[..n + 1] == ms + kept[..n] + [kept[n]]
  {
  }

  function InsertAt(at: Option<int>, n: nat): (i: nat)
    ensures i <= n
  {
    if at.Some? then SpliceAt(at.value, n) else n
  }

  lemma SplicedIsDistinct(ms: seq<Model>, kept: seq<Model>, i: nat, byCid: map<Key, Model>, ids: set<Key>)
    requires i <= |ms| && DistinctCids(ms) && CidsIndexed(byCid, ms) && Apart(kept, byCid.Keys, ids)
    ensures DistinctCids(Spliced(ms, i, kept))
  {
    forall m, k | m in ms && k in kept
      ensures m.cid != k.cid
    {
      assert m.cid in byCid && k.cid !in byCid.Keys;
    }
  }

  lemma NewOrOld(ms: seq<Model>, kept: seq<Model>, i: nat, byCid: map<Key, Model>, ids: set<Key>, n: nat)
    requires i <= |ms| && n < |ms| + |kept| && CidsIndexed(byCid, ms) && Apart(kept, byCid.Keys, ids)
    ensures Spliced(ms, i, kept)[n].cid in CidsOf(kept) <==> i <= n < i + |kept|
  {
    if i <= n < i + |kept| {
      assert Spliced(ms, i, kept)[n] == kept[n - i];
    } else {
      assert Spliced(ms, i, kept)[n] == ms[if n < i then n else n - |kept|];
      assert forall k | k in kept :: k.cid !in byCid.Keys;
    }
  }

  lemma NextIsFree(ms: seq<Model>, kept: seq<Model>, n: nat, byCid0: map<Key, Model>, ids: set<Key>,
                   byCid: map<Key, Model>, byId: map<Key, Model>, heard: multiset<Model>, full: bool)
    requires n < |kept| && Apart(kept, byCid0.Keys, ids) && CidsIndexed(byCid0, ms)
    requires Agree(byCid, byId, heard, ms + kept[..n], full) && FiledWithin(byId, ids, kept[..n])
    ensures kept[n].cid !in byCid
    ensures kept[n].id.Some? ==> kept[n].id.value !in byId
  {
  }

  lemma KeptNone(cids: set<Key>, ids: set<Key>)
    ensures Kept([], cids, ids) == [] && CidsOf([]) == {} && KeysOf([]) == {} && TakenOut<Model>([], []) == []
  {
  }

  lemma TakenOutUnfolds<T>(s: seq<T>, ps: seq<nat>, p: nat, qs: seq<nat>)
    requires Positions(ps, |s|) && ps == qs + [p] && p < |s| && Positions(qs, |s| - 1)
    ensures TakenOut(s, ps) == TakenOut(s[..p] + s[p + 1..], qs)
  {
    assert ps[..|ps| - 1] == qs;
  }

  lemma TakeOutStep<T>(s: seq<T>, h: seq<nat>, n: nat)
    requires n < |h| && Positions(h[..n + 1], |s|)
    ensures h[n] < |s| && Positions(h[..n], |s| - 1)
    ensures TakenOut(s, h[..n + 1]) == TakenOut(s[..h[n]] + s[h[n] + 1..], h[..n])
  {
    hide Positions, TakenOut;
    PositionsStep(h, n, |s|);
    TakenOutUnfolds(s, h[..n + 1], h[n], h[..n]);
  }

  lemma PositionsStep(h: seq<nat>, n: nat, k: nat)
    requires n < |h| && Positions(h[..n + 1], k)
    ensures h[n] < k && Positions(h[..n], k - 1)
  {
    var ps := h[..n + 1];
    assert ps[n] == h[n];
    forall i | 0 <= i < n
      ensures h[i] < h[n]
    {
      assert ps[i] < ps[n];
    }
  }

  lemma TakeOutNone<T>(s: seq<T>, h: seq<nat>)
    requires |h| == 0
    ensures Positions(h, |s|) && TakenOut(s, h) == s
  {
  }

  lemma KeptStep(batch: seq<Model>, n: nat, cids: set<Key>, ids: set<Key>)
    requires n < |batch|
    ensures var kept := Kept(batch[..n], cids, ids);
            Kept(batch[..n + 1], cids, ids) == if Taken(batch[n], kept, cids, ids) then kept else kept + [batch[n]]
  {
    assert batch[..n + 1][..n] == batch[..n];
  }

  lemma KeysOneMore(kept: seq<Model>, s: Model)
    ensures CidsOf(kept + [s]) == CidsOf(kept) + {s.cid}
    ensures KeysOf(kept + [s]) == KeysOf(kept) + {KeyOf(s.id)}
  {
    var all := kept + [s];
    assert forall m :: m in all <==> m in kept || m == s;
  }

  // ---------- how the index by id goes wrong ----------

  method Pair(a: Model, b: Model) returns (c: Collection)
    requires a.cid != b.cid && (b.id.Some? ==> a.id != b.id)
    ensures fresh(c) && c.Valid() && c.Complete() && c.models == [a, b]
  {
    hide Agree, IdsComplete, Kept, Spliced, DistinctCids;
    c := new Collection();
    NoKeys(c.byCid, c.byId, c.heard);
    ghost var cids, ids := c.byCid.Keys, c.byId.Keys;
    var _ := c.Add([a], None, true);
    OneKept(a, cids, ids);
    AtTheEnd([], a);
    assert c.models == Spliced([], 0, Kept([a], cids, ids)) == [a];
    OneKey(c.byCid, c.byId, c.heard, a);
    cids, ids := c.byCid.Keys, c.byId.Keys;
    var _ := c.Add([b], None, true);
    OneKept(b, cids, ids);
    AtTheEnd([a], b);
  }

  // A model without an id goes, and the entry of the one with id "undefined" goes with it.
  method RemovalSpoils() returns (c: Collection)
    ensures fresh(c) && c.Valid() && |c.models| == 1 && !c.Complete()
  {
    var a := new Model("c1", None);
    var b := new Model("c2", Some("undefined"));
    assert a.cid[1] != b.cid[1];
    c := Pair(a, b);
    hide Agree, DistinctCids;
    LookupIsMember(c.byCid, c.byId, c.heard, [a, b], a);
    var r, i := c.RemoveOne(ByModel(a));
    assert c.models[0] == b && KeyOf(None) !in c.byId;
  }

  // A model gets the id of another member, whose entry it takes over.
  method SetIdSpoils() returns (c: Collection)
    ensures fresh(c) && c.Valid() && |c.models| == 2 && !c.Complete()
  {
    var a := new Model("c1", Some("1"));
    var b := new Model("c2", Some("2"));
    assert a.cid[1] != b.cid[1] && a.id.value[0] != b.id.value[0];
    c := Pair(a, b);
    assert c.models[0] == a && c.models[1] == b;
    hide Agree, DistinctCids;
    c.SetId(b, Some("1"));
  }

  lemma OneKept(m: Model, cids: set<Key>, ids: set<Key>)
    requires m.cid !in cids && (m.id.Some? ==> m.id.value !in ids)
    ensures Kept([m], cids, ids) == [m]
  {
    assert Kept([], cids, ids) == [];
    assert [m][..0] == [];
  }

  lemma AtTheEnd(ms: seq<Model>, m: Model)
    ensures Spliced(ms, |ms|, [m]) == ms + [m]
  {
  }

  lemma NoKeys(byCid: map<Key, Model>, byId: map<Key, Model>, heard: multiset<Model>)
    requires Agree(byCid, byId, heard, [], false)
    ensures byCid.Keys == {} && byId.Keys == {}
  {
  }

  lemma OneKey(byCid: map<Key, Model>, byId: map<Key, Model>, heard: multiset<Model>, a: Model)
    requires Agree(byCid, byId, heard, [a], false) && IdsComplete(byId, [a])
    ensures byCid.Keys == {a.cid} && byId.Keys <= {KeyOf(a.id)} && (a.id.None? ==> byId.Keys == {})
  {
    assert a in [a];
  }

  lemma LookupIsMember(byCid: map<Key, Model>, byId: map<Key, Model>, heard: multiset<Model>, ms: seq<Model>, a: Model)
    requires Agree(byCid, byId, heard, ms, false) && a in ms
    ensures Lookup(ByModel(a), byCid, byId) == Some(a)
  {
  }
}
