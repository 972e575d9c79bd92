/** Turning a validated list of events into a batch: timely, without contradictions, and
    without repeats. */
module Batch {

  /** A validated event: its id, its time in milliseconds, and everything else it says. */
  datatype Event<T> = Event(id: string, time: int, content: T)

  datatype Fault = InvalidTimestamp | ConflictingEvent

  datatype Parsed<T> = Accepted(events: seq<Event<T>>) | Rejected(fault: Fault)

  const DAY := 24 * 60 * 60 * 1000
  const SLACK := 5 * 60 * 1000

  predicate Timely<T>(e: Event<T>, now: int) { now - DAY <= e.time <= now + SLACK }

  /** Two events with one id must be the same event. */
  predicate Agree<T(==)>(a: Event<T>, b: Event<T>) { a.id == b.id ==> a == b }

  /** What a batch must satisfy, as a property of its events alone: their order plays no part. */
  ghost predicate Acceptable<T>(es: seq<Event<T>>, now: int) {
    && (forall e :: e in es ==> Timely(e, now))
    && (forall a, b :: a in es && b in es ==> Agree(a, b))
  }

  ghost predicate HasId<T>(es: seq<Event<T>>, id: string) { exists e :: e in es && e.id == id }

  /** First occurrences, by id, in order. */
  ghost function Distinct<T>(es: seq<Event<T>>): seq<Event<T>> {
    if es == [] then []
    else
      var before, last := es[..|es| - 1], es[|es| - 1];
      Distinct(before) + if HasId(before, last.id) then [] else [last]
  }

  ghost predicate DistinctIds<T>(es: seq<Event<T>>) {
    forall i, j :: 0 <= i < j < |es| ==> es[i].id != es[j].id
  }

  lemma {:induction false} DistinctHas<T>(es: seq<Event<T>>)
    ensures forall e :: e in Distinct(es) ==> e in es
    ensures forall id :: HasId(Distinct(es), id) <==> HasId(es, id)
    ensures DistinctIds(Distinct(es))
  {
    if es != [] {
      var before, last := es[..|es| - 1], es[|es| - 1];
      DistinctHas(before);
      var d := Distinct(before);
      assert es == before + [last];
      forall id ensures HasId(Distinct(es), id) <==> HasId(es, id) {
        assert HasId(es, id) <==> HasId(before, id) || last.id == id;
        assert HasId(Distinct(es), id) <==> HasId(d, id) || (last.id == id && !HasId(before, last.id));
      }
      forall i, j | 0 <= i < j < |Distinct(es)| ensures Distinct(es)[i].id != Distinct(es)[j].id {
        if j == |d| {
          assert d[i] in d;
        }
      }
    }
  }

  /** In a batch without contradictions nothing is lost: every event is still there. */
  lemma DistinctLosesNothing<T>(es: seq<Event<T>>, now: int)
    requires Acceptable(es, now)
    ensures forall e :: e in es <==> e in Distinct(es)
  {
    DistinctHas(es);
    forall e | e in es ensures e in Distinct(es) {
      assert HasId(es, e.id);
      assert HasId(Distinct(es), e.id);
      var f :| f in Distinct(es) && f.id == e.id;
      assert Agree(e, f);
    }
  }

  lemma LastIsNew<T>(before: seq<Event<T>>, last: Event<T>)
    requires DistinctIds(before + [last])
    ensures DistinctIds(before) && !HasId(before, last.id)
  {
    var es := before + [last];
    forall i, j | 0 <= i < j < |before| ensures before[i].id != before[j].id {
      assert es[i].id != es[j].id;
    }
    forall e | e in before ensures e.id != last.id {
      var i :| 0 <= i < |before| && before[i] == e;
      assert es[i].id != es[|before|].id;
    }
  }

  lemma {:induction false} DistinctStable<T>(es: seq<Event<T>>)
    requires DistinctIds(es)
    ensures Distinct(es) == es
  {
    if es != [] {
      var before, last := es[..|es| - 1], es[|es| - 1];
      assert es == before + [last];
      LastIsNew(before, last);
      DistinctStable(before);
    }
  }

  /** The fault reported is that of the first event at which the list stops being acceptable;
      a bad time is noticed before a contradiction. */
  ghost predicate FirstFault<T>(es: seq<Event<T>>, now: int, k: int, fault: Fault) {
    && 0 <= k < |es| && Acceptable(es[..k], now)
    && match fault
       case InvalidTimestamp => !Timely(es[k], now)
       case ConflictingEvent => Timely(es[k], now) && exists e :: e in es[..k] && !Agree(e, es[k])
  }

  /** The ids seen so far, in the order of their first occurrence. */
  ghost predicate Orders<T>(order: seq<string>, seen: seq<Event<T>>) {
    |order| == |Distinct(seen)| && forall i :: 0 <= i < |order| ==> order[i] == Distinct(seen)[i].id
  }

  /** The events seen so far, by id. */
  ghost predicate Maps<T>(unique: map<string, Event<T>>, seen: seq<Event<T>>) {
    && (forall e :: e in seen ==> e.id in unique && unique[e.id] == e)
    && (forall id :: id in unique ==> unique[id] in seen && unique[id].id == id)
  }

  ghost predicate Tracks<T>(order: seq<string>, unique: map<string, Event<T>>, seen: seq<Event<T>>) {
    Orders(order, seen) && Maps(unique, seen)
  }

  lemma PrefixAcceptable<T>(es: seq<Event<T>>, now: int, k: nat)
    requires k < |es| && Acceptable(es[..k], now) && Timely(es[k], now)
    requires forall e :: e in es[..k] ==> Agree(e, es[k])
    ensures Acceptable(es[..k + 1], now)
  {
    assert es[..k + 1] == es[..k] + [es[k]];
  }

  lemma Unacceptable<T>(es: seq<Event<T>>, now: int, k: nat, fault: Fault)
    requires FirstFault(es, now, k, fault)
    ensures !Acceptable(es, now)
  {
    assert forall e :: e in es[..k] ==> e in es;
  }

  lemma OrdersNext<T>(order: seq<string>, seen: seq<Event<T>>, e: Event<T>)
    requires Orders(order, seen)
    ensures Orders(if HasId(seen, e.id) then order else order + [e.id], seen + [e])
  {
    NextDistinct(seen, e);
    var before, after := Distinct(seen), Distinct(seen + [e]);
    assert forall i :: 0 <= i < |before| ==> after[i] == before[i];
  }

  lemma MapsNext<T>(unique: map<string, Event<T>>, seen: seq<Event<T>>, e: Event<T>)
    requires Maps(unique, seen) && (e.id in unique ==> unique[e.id] == e)
    ensures Maps(unique[e.id := e], seen + [e])
  {
    var u := unique[e.id := e];
    forall id | id in u ensures u[id] in seen + [e] && u[id].id == id {
      assert id != e.id ==> id in unique && unique[id] in seen;
    }
  }

  lemma TrackNext<T>(order: seq<string>, unique: map<string, Event<T>>, es: seq<Event<T>>, k: nat)
    requires k < |es| && Tracks(order, unique, es[..k])
    requires es[k].id in unique ==> unique[es[k].id] == es[k]
    ensures Tracks(if es[k].id in unique then order else order + [es[k].id], unique[es[k].id := es[k]], es[..k + 1])
  {
    assert es[..k + 1] == es[..k] + [es[k]];
    OrdersNext(order, es[..k], es[k]);
    MapsNext(unique, es[..k], es[k]);
    assert HasId(es[..k], es[k].id) <==> es[k].id in unique;
  }

  lemma NextDistinct<T>(before: seq<Event<T>>, e: Event<T>)
    ensures Distinct(before + [e]) == Distinct(before) + if HasId(before, e.id) then [] else [e]
  {
    assert (before + [e])[..|before|] == before;
  }

  method ParseBatch<T(==)>(es: seq<Event<T>>, now: int) returns (r: Parsed<T>)
    ensures r.Accepted? <==> Acceptable(es, now)
    ensures r.Accepted? ==> r.events == Distinct(es)
    ensures r.Rejected? ==> exists k :: FirstFault(es, now, k, r.fault)
  {
    var order: seq<string> := [];
    var unique: map<string, Event<T>> := map[];
    for i := 0 to |es|
      invariant Acceptable(es[..i], now) && Tracks(order, unique, es[..i])
    {
      var e := es[i];
      if !Timely(e, now) {
        assert FirstFault(es, now, i, InvalidTimestamp);
        Unacceptable(es, now, i, InvalidTimestamp);
        return Rejected(InvalidTimestamp);
      }
      if e.id in unique && unique[e.id] != e {
        assert unique[e.id] in es[..i] && !Agree(unique[e.id], es[i]);
        assert FirstFault(es, now, i, ConflictingEvent);
        Unacceptable(es, now, i, ConflictingEvent);
        return Rejected(ConflictingEvent);
      }
      PrefixAcceptable(es, now, i);
      TrackNext(order, unique, es, i);
      order := if e.id in unique then order else order + [e.id];
      unique := unique[e.id := e];
    }
    assert es[..|es|] == es;
    TracksAre(order, unique, es);
    var events := Collect(order, unique);
    r := Accepted(events);
  }

  function Collect<T>(order: seq<string>, unique: map<string, Event<T>>): (events: seq<Event<T>>)
    requires forall i :: 0 <= i < |order| ==> order[i] in unique
    ensures |events| == |order| && forall i :: 0 <= i < |order| ==> events[i] == unique[order[i]]
  {
    seq(|order|, i requires 0 <= i < |order| => unique[order[i]])
  }

  lemma TracksAre<T>(order: seq<string>, unique: map<string, Event<T>>, es: seq<Event<T>>)
    requires Tracks(order, unique, es)
    ensures forall i :: 0 <= i < |order| ==> order[i] in unique && unique[order[i]] == Distinct(es)[i]
  {
    DistinctHas(es);
    forall i | 0 <= i < |order| ensures order[i] in unique && unique[order[i]] == Distinct(es)[i] {
      assert Distinct(es)[i] in Distinct(es);
    }
  }

  /** Reordering a batch changes neither whether it is accepted nor which events it holds. */
  lemma OrderDoesNotMatter<T>(a: seq<Event<T>>, b: seq<Event<T>>, now: int)
    requires multiset(a) == multiset(b)
    ensures Acceptable(a, now) <==> Acceptable(b, now)
    ensures Acceptable(a, now) ==> forall e :: e in Distinct(a) <==> e in Distinct(b)
  {
    assert forall e :: e in a <==> e in multiset(a);
    assert forall e :: e in b <==> e in multiset(b);
    if Acceptable(a, now) {
      DistinctLosesNothing(a, now);
      DistinctLosesNothing(b, now);
    }
  }

  /** An accepted batch, parsed again at the same time, is accepted unchanged; its ids are distinct. */
  lemma ParsingSettles<T>(es: seq<Event<T>>, now: int)
    requires Acceptable(es, now)
    ensures DistinctIds(Distinct(es)) && Acceptable(Distinct(es), now) && Distinct(Distinct(es)) == Distinct(es)
  {
    DistinctHas(es);
    DistinctStable(Distinct(es));
  }

  /** At most a day old, and at most five minutes ahead. */
  lemma TimelyMeans<T>(e: Event<T>, now: int)
    ensures Timely(e, now) <==> now - 86400000 <= e.time <= now + 300000
  {
  }

  /** The i-th event kept is the first with its id, and what was kept before it is what came
      before it: events stay in the order of their first occurrence. */
  lemma {:induction false} FirstOccurrences<T>(es: seq<Event<T>>, i: nat) returns (p: nat)
    requires i < |Distinct(es)|
    ensures p < |es| && es[p] == Distinct(es)[i] && !HasId(es[..p], es[p].id)
    ensures Distinct(es[..p]) == Distinct(es)[..i]
  {
    var last := |es| - 1;
    var d := Distinct(es[..last]);
    if i < |d| {
      p := FirstOccurrences(es[..last], i);
      assert es[..last][..p] == es[..p];
      assert Distinct(es)[..i] == d[..i];
    } else {
      p := last;
      assert Distinct(es)[..i] == d;
    }
  }

  // ---- object keys --------------------------------------------------------------------------

  ghost predicate RepeatsKey<V>(pairs: seq<(string, V)>) {
    exists i, j :: 0 <= i < j < |pairs| && pairs[i].0 == pairs[j].0
  }

  /** An object that names a key twice is refused; otherwise it holds exactly the pairs. */
  method RejectDuplicateKeys<V>(pairs: seq<(string, V)>) returns (ok: bool, result: map<string, V>)
    ensures ok <==> !RepeatsKey(pairs)
    ensures ok ==> result.Keys == set i | 0 <= i < |pairs| :: pairs[i].0
    ensures ok ==> forall i :: 0 <= i < |pairs| ==> pairs[i].0 in result && result[pairs[i].0] == pairs[i].1
  {
    result := map[];
    for k := 0 to |pairs|
      invariant forall i, j :: 0 <= i < j < k ==> pairs[i].0 != pairs[j].0
      invariant result.Keys == set i | 0 <= i < k :: pairs[i].0
      invariant forall i :: 0 <= i < k ==> pairs[i].0 in result && result[pairs[i].0] == pairs[i].1
    {
      var (key, value) := pairs[k];
      if key in result {
        return false, result;
      }
      result := result[key := value];
    }
    ok := true;
  }
}
