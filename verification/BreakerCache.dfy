/** The handler's map of circuit breakers, filled by double-checked locking. */
module BreakerCache {
  import opened Common
  import opened Breaker
  import opened Retry

  class Handler {
    var cbs: map<string, CircuitBreaker>

    constructor ()
      ensures cbs == map[]
    {
      cbs := map[];
    }

    /** The section under the read lock. */
    method Lookup(id: string) returns (found: Option<CircuitBreaker>)
      ensures found == if id in cbs then Some(cbs[id]) else None
    {
      if id in cbs {
        return Some(cbs[id]);
      }
      return None;
    }

    /** The section under the write lock, which checks again before it creates. */
    method LookupOrCreate(id: string) returns (cb: CircuitBreaker)
      modifies this
      ensures id in old(cbs) ==> cbs == old(cbs) && cb == cbs[id]
      ensures id !in old(cbs) ==> fresh(cb) && cbs == old(cbs)[id := cb] && cb.View() == Initial(3, 5_000_000_000)
    {
      if id in cbs {
        return cbs[id];
      }
      cb := new CircuitBreaker(3, 5 * SECOND);
      cbs := cbs[id := cb];
    }

    method GetCircuitBreaker(id: string) returns (cb: CircuitBreaker)
      modifies this
      ensures id in cbs && cb == cbs[id]
      ensures id in old(cbs) ==> cbs == old(cbs)
      ensures id !in old(cbs) ==> fresh(cb) && cbs == old(cbs)[id := cb] && cb.View() == Initial(3, 5_000_000_000)
    {
      var found := Lookup(id);
      if found.Some? {
        return found.value;
      }
      cb := LookupOrCreate(id);
    }
  }

  // --------------------------------------------- any number of concurrent callers

  /** Where a caller stands: before the read-locked section, between the two
      sections after a miss, or done. Breaker objects are numbered as created. */
  datatype Phase = Start | Missed | Returned(breaker: nat)

  /** `created` lists, in order, the endpoint each breaker was created for. */
  datatype Sys = Sys(cbs: map<string, nat>, created: seq<string>, phase: seq<Phase>)

  /** `wants[i]` is the endpoint caller i asks for. */
  function Fresh(wants: seq<string>): Sys {
    Sys(map[], [], seq(|wants|, i => Start))
  }

  /** Caller i runs its next locked section. */
  function Advance(wants: seq<string>, s: Sys, i: nat): Sys
    requires i < |wants| == |s.phase|
  {
    var id := wants[i];
    match s.phase[i]
    case Returned(_) => s
    case Start =>
      s.(phase := s.phase[i := if id in s.cbs then Returned(s.cbs[id]) else Missed])
    case Missed =>
      if id in s.cbs then s.(phase := s.phase[i := Returned(s.cbs[id])])
      else Sys(s.cbs[id := |s.created|], s.created + [id], s.phase[i := Returned(|s.created|)])
  }

  ghost predicate Schedule(wants: seq<string>, who: seq<nat>) {
    forall k :: 0 <= k < |who| ==> who[k] < |wants|
  }

  function Interleave(wants: seq<string>, who: seq<nat>): (s: Sys)
    requires Schedule(wants, who)
    ensures |s.phase| == |wants|
  {
    if who == [] then Fresh(wants) else
      Advance(wants, Interleave(wants, who[..|who| - 1]), who[|who| - 1])
  }

  ghost predicate CacheInv(wants: seq<string>, s: Sys)
    requires |s.phase| == |wants|
  {
    && (forall id :: id in s.cbs ==> s.cbs[id] < |s.created| && s.created[s.cbs[id]] == id)
    && (forall n :: 0 <= n < |s.created| ==> s.created[n] in s.cbs && s.cbs[s.created[n]] == n)
    && (forall i :: 0 <= i < |wants| && s.phase[i].Returned? ==>
          wants[i] in s.cbs && s.phase[i].breaker == s.cbs[wants[i]])
  }

  lemma {:induction false} CacheInvHolds(wants: seq<string>, who: seq<nat>)
    requires Schedule(wants, who)
    ensures CacheInv(wants, Interleave(wants, who))
  {
    if who != [] {
      CacheInvHolds(wants, who[..|who| - 1]);
    }
  }

  /** In every interleaving, callers that return for the same endpoint return the
      same breaker, and no endpoint ever gets a second one. */
  lemma OneBreakerPerEndpoint(wants: seq<string>, who: seq<nat>)
    requires Schedule(wants, who)
    ensures var s := Interleave(wants, who);
      && (forall i, j :: 0 <= i < |wants| && 0 <= j < |wants| && s.phase[i].Returned? && s.phase[j].Returned? ==>
            (wants[i] == wants[j] <==> s.phase[i].breaker == s.phase[j].breaker))
      && (forall m, n :: 0 <= m < n < |s.created| ==> s.created[m] != s.created[n])
  {
    CacheInvHolds(wants, who);
  }

  /** A map entry is never overwritten or removed, and a returned caller stays so. */
  lemma {:induction false} EntriesAreStable(wants: seq<string>, who: seq<nat>, n: nat)
    requires Schedule(wants, who) && n <= |who|
    ensures var before, after := Interleave(wants, who[..n]), Interleave(wants, who);
      && (forall id :: id in before.cbs ==> id in after.cbs && after.cbs[id] == before.cbs[id])
      && (forall i :: 0 <= i < |wants| && before.phase[i].Returned? ==> after.phase[i] == before.phase[i])
  {
    if n == |who| {
      assert who[..n] == who;
    } else {
      var front := who[..|who| - 1];
      assert front[..n] == who[..n];
      EntriesAreStable(wants, front, n);
    }
  }

  function Turns(who: seq<nat>, i: nat): nat {
    if who == [] then 0 else Turns(who[..|who| - 1], i) + if who[|who| - 1] == i then 1 else 0
  }

  /** A caller has its answer after at most two locked sections. */
  lemma {:induction false} TwoTurnsSuffice(wants: seq<string>, who: seq<nat>, i: nat)
    requires Schedule(wants, who) && i < |wants|
    ensures Turns(who, i) >= 1 ==> !Interleave(wants, who).phase[i].Start?
    ensures Turns(who, i) >= 2 ==> Interleave(wants, who).phase[i].Returned?
  {
    if who != [] {
      TwoTurnsSuffice(wants, who[..|who| - 1], i);
    }
  }

  // ------------------------------------------------------ the handler runs the steps

  /** The handler's map holds the breakers `order`, numbered as they were created. */
  ghost predicate Represents(cbs: map<string, CircuitBreaker>, order: seq<CircuitBreaker>, s: Sys) {
    && |order| == |s.created| && cbs.Keys == s.cbs.Keys
    && (forall m, n :: 0 <= m < n < |order| ==> order[m] != order[n])
    && (forall id :: id in cbs ==> s.cbs[id] < |order| && cbs[id] == order[s.cbs[id]])
  }

  /** Caller i waits between its two sections, or has got its answer. */
  ghost predicate Stands(missed: bool, got: Option<CircuitBreaker>, order: seq<CircuitBreaker>, phase: Phase) {
    match phase
    case Start => !missed && got.None?
    case Missed => missed && got.None?
    case Returned(n) => n < |order| && got == Some(order[n])
  }

  /** One locked section of caller i, on the handler, is one step of the interleaving. */
  method Section(h: Handler, wants: seq<string>, i: nat, missed: bool, ghost order: seq<CircuitBreaker>, ghost s: Sys)
    returns (got: Option<CircuitBreaker>, ghost order': seq<CircuitBreaker>)
    requires i < |wants| == |s.phase| && Represents(h.cbs, order, s) && Stands(missed, None, order, s.phase[i])
    modifies h
    ensures var s' := Advance(wants, s, i);
      Represents(h.cbs, order', s') && Stands(got.None?, got, order', s'.phase[i])
    ensures order <= order'
  {
    order' := order;
    if !missed {
      got := h.Lookup(wants[i]);
    } else {
      var cb := h.LookupOrCreate(wants[i]);
      if wants[i] !in old(h.cbs) {
        order' := order + [cb];
      }
      got := Some(cb);
    }
  }

  /** Callers on one handler, in any interleaving of their locked sections: whoever has an
      answer has the same breaker as all others who asked for the same endpoint, and none
      that was given out for another; two sections are enough. */
  method Callers(h: Handler, wants: seq<string>, who: seq<nat>) returns (got: seq<Option<CircuitBreaker>>)
    requires h.cbs == map[] && Schedule(wants, who)
    modifies h
    ensures |got| == |wants|
    ensures forall i, j :: 0 <= i < |got| && 0 <= j < |got| && got[i].Some? && got[j].Some? ==>
      (wants[i] == wants[j] <==> got[i] == got[j])
    ensures forall i :: 0 <= i < |got| && Turns(who, i) >= 2 ==> got[i].Some?
  {
    got := seq(|wants|, _ => None);
    var missed := seq(|wants|, _ => false);
    ghost var order, s := [], Fresh(wants);
    for k := 0 to |who|
      invariant |got| == |missed| == |wants| && s == Interleave(wants, who[..k])
      invariant Represents(h.cbs, order, s)
      invariant AllStand(missed, got, order, s.phase)
    {
      var i := who[k];
      assert who[..k + 1][..k] == who[..k];
      if got[i].None? {
        var answer;
        ghost var order';
        answer, order' := Section(h, wants, i, missed[i], order, s);
        OneStands(missed, got, order, s.phase, i, answer, order', Advance(wants, s, i).phase);
        got, missed, order := got[i := answer], missed[i := answer.None?], order';
      }
      s := Advance(wants, s, i);
    }
    assert who[..|who|] == who;
    AnswersAgree(wants, who, missed, got, order, s);
  }

  ghost predicate AllStand(missed: seq<bool>, got: seq<Option<CircuitBreaker>>, order: seq<CircuitBreaker>,
      phase: seq<Phase>) {
    && |missed| == |got| == |phase|
    && forall i :: 0 <= i < |got| ==> Stands(missed[i], got[i], order, phase[i])
  }

  lemma {:induction false} OneStands(missed: seq<bool>, got: seq<Option<CircuitBreaker>>, order: seq<CircuitBreaker>,
                                     phase: seq<Phase>, i: nat, answer: Option<CircuitBreaker>,
                                     order': seq<CircuitBreaker>, phase': seq<Phase>)
    requires i < |phase| && AllStand(missed, got, order, phase) && order <= order'
    requires |phase'| == |phase| && phase' == phase[i := phase'[i]] && Stands(answer.None?, answer, order', phase'[i])
    ensures AllStand(missed[i := answer.None?], got[i := answer], order', phase')
  {
  }

  lemma {:induction false} AnswersAgree(wants: seq<string>, who: seq<nat>, missed: seq<bool>,
                                        got: seq<Option<CircuitBreaker>>, order: seq<CircuitBreaker>, s: Sys)
    requires Schedule(wants, who) && s == Interleave(wants, who) && AllStand(missed, got, order, s.phase)
    requires forall m, n :: 0 <= m < n < |order| ==> order[m] != order[n]
    ensures forall i, j :: 0 <= i < |got| && 0 <= j < |got| && got[i].Some? && got[j].Some? ==>
      (wants[i] == wants[j] <==> got[i] == got[j])
    ensures forall i :: 0 <= i < |got| && Turns(who, i) >= 2 ==> got[i].Some?
  {
    forall i, j | 0 <= i < |got| && 0 <= j < |got| && got[i].Some? && got[j].Some?
      ensures wants[i] == wants[j] <==> got[i] == got[j]
    {
      OneBreakerPerEndpoint(wants, who);
      assert Stands(missed[i], got[i], order, s.phase[i]) && Stands(missed[j], got[j], order, s.phase[j]);
    }
    forall i | 0 <= i < |got| && Turns(who, i) >= 2 ensures got[i].Some? {
      TwoTurnsSuffice(wants, who, i);
      assert Stands(missed[i], got[i], order, s.phase[i]);
    }
  }
}
