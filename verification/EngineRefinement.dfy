/**
 The engine, with its bounded pool, against the benchmark's unbounded matcher: the two agree on every
 run, exactly as long as no request finds the pool full.
 */
module EngineRefinement {
  import opened Trading
  import opened Exchange
  import opened ExchangeLaws
  import opened ExchangeContract
  import opened ExchangeLedger
  import opened FlowMatcher
  import opened MatchingEngine

  /** One request: the bounded exchange ends in the state of the unbounded one unless the request is
      turned away. */
  lemma SameUnlessFull(s: State, q: Request, levels: int, capacity: int)
    requires StateInv(s, levels, capacity) && MayEnter(s, q, levels)
    ensures Enter(s, q, capacity).state == EnterUnlimited(s, q) <==> !NoRoom(s, q, capacity)
  {
    var m, id := Match(s.book, q.side, q.price, q.qty), s.accepted + 1;
    LegalPositive(s.book, s.accepted, levels);
    MatchLeaves(s.book, q.side, q.price, q.qty);
    if NoRoom(s, q, capacity) {
      MatchStops(s.book, q.side, q.price, q.qty);
      assert id !in m.book && id in Kept(q, m, id);
    }
  }

  /** A cancel down to zero takes the order out of the book. */
  lemma WholeCancel(s: State, account: u32, urn: u32, id: int, levels: int, capacity: int)
    requires StateInv(s, levels, capacity) && Resting(s.book, account, urn, id)
    ensures Cancel(s, account, urn, 0) ==
      Response(s.(book := s.book - {id}), [Cancelled(account, urn, s.book[id].qty, 'U')], s.book[id].qty)
  {
    CancelActsOn(s, account, urn, 0, id);
  }

  // ---- whole runs ----

  /** What the benchmark's matcher makes of one message that it has generated. */
  ghost predicate Tracked(x: Input, s: State, s': State) {
    match x
    case EnterOrder(q) => s' == EnterUnlimited(s, q)
    case CancelOrder(account, urn, qty) =>
      qty == 0 && exists id :: Resting(s.book, account, urn, id) && s' == s.(book := s.book - {id})
  }

  /** `states[i]` is what the benchmark's matcher holds after it has generated the first `i` messages. */
  ghost predicate Flow(inputs: seq<Input>, states: seq<State>) {
    && |states| == |inputs| + 1
    && states[0] == State(map[], 0, 0)
    && forall i :: 0 <= i < |inputs| ==> Tracked(inputs[i], states[i], states[i + 1])
  }

  ghost predicate FindsRoom(x: Input, s: State, capacity: int) {
    x.EnterOrder? ==> !NoRoom(s, x.q, capacity)
  }

  lemma StepAgrees(x: Input, s: State, sent: seq<Msg>, s': State, sent': seq<Msg>, t': State, levels: int, capacity: int)
    requires StateInv(s, levels, capacity) && Answered(x, s, sent, s', sent', levels, capacity) && Tracked(x, s, t')
    ensures s' == t' <==> FindsRoom(x, s, capacity)
  {
    match x
    case EnterOrder(q) => SameUnlessFull(s, q, levels, capacity);
    case CancelOrder(account, urn, qty) =>
      var id :| Resting(s.book, account, urn, id) && t' == s.(book := s.book - {id});
      WholeCancel(s, account, urn, id, levels, capacity);
  }

  /** The two hold the same open orders, and have made the same number of fills, after each of the
      first `n` messages, exactly if none of these messages found the pool full. */
  lemma {:induction false} RunsAgree(inputs: seq<Input>, states: seq<State>, outs: seq<seq<Msg>>, flow: seq<State>,
                                     levels: int, capacity: nat, n: nat)
    requires Run(inputs, states, outs, levels, capacity) && Flow(inputs, flow) && n <= |inputs|
    ensures (forall i :: 0 <= i <= n ==> states[i] == flow[i])
            <==> (forall i :: 0 <= i < n ==> FindsRoom(inputs[i], states[i], capacity))
  {
    if n > 0 {
      RunsAgree(inputs, states, outs, flow, levels, capacity, n - 1);
      if states[n - 1] == flow[n - 1] {
        var k := n - 1;
        RunBalances(inputs, states, outs, levels, capacity, 0, 0, k);
        assert Answered(inputs[k], states[k], outs[k], states[n], outs[n], levels, capacity);
        assert Tracked(inputs[k], flow[k], flow[n]);
        StepAgrees(inputs[k], states[k], outs[k], states[n], outs[n], flow[n], levels, capacity);
      }
    }
  }

  /** As long as they agree, the engine reports the fills of the benchmark's matcher: the same orders, quantities and
      prices, in the same order; each to both sides, at the price of the order that was resting. */
  lemma SameFills(inputs: seq<Input>, states: seq<State>, outs: seq<seq<Msg>>, flow: seq<State>,
                  levels: int, capacity: nat, n: nat)
    requires Run(inputs, states, outs, levels, capacity) && Flow(inputs, flow) && n < |inputs|
    requires forall i :: 0 <= i <= n ==> FindsRoom(inputs[i], states[i], capacity)
    requires inputs[n].EnterOrder?
    ensures var q := inputs[n].q;
      var m, sent, said := Match(flow[n].book, q.side, q.price, q.qty), outs[n + 1], |outs[n]|;
      var open := m.left > 0 && q.price == MARKET;
      && outs[n] <= sent && |sent| == said + 1 + 2 * |m.fills| + (if open then 1 else 0)
      && sent[said] == Accepted(q.account, q.urn, q.side, q.qty, q.price, flow[n].accepted + 1)
      && (forall k {:trigger m.fills[k]} :: 0 <= k < |m.fills| ==> var f, o := m.fills[k], m.fills[k].maker;
           && f.id in flow[n].book && o == flow[n].book[f.id]
           && sent[said + 1 + 2 * k] == Executed(q.account, q.urn, f.qty, o.price, 'R', flow[n].matches + 1 + k)
           && sent[said + 2 + 2 * k] == Executed(o.account, o.urn, f.qty, o.price, 'A', flow[n].matches + 1 + k))
      && (open ==> sent[said + 1 + 2 * |m.fills|] == Cancelled(q.account, q.urn, m.left, 'I'))
  {
    hide Match, StateInv;
    var s, q := states[n], inputs[n].q;
    RunsAgree(inputs, states, outs, flow, levels, capacity, n);
    RunBalances(inputs, states, outs, levels, capacity, 0, 0, n);
    assert Answered(inputs[n], s, outs[n], states[n + 1], outs[n + 1], levels, capacity);
    AnswersInFull(s, q, levels, capacity);
  }

  lemma AnswersInFull(s: State, q: Request, levels: int, capacity: nat)
    requires StateInv(s, levels, capacity) && MayEnter(s, q, levels) && !NoRoom(s, q, capacity)
    ensures var m, msgs := Match(s.book, q.side, q.price, q.qty), Enter(s, q, capacity).msgs;
      TradesWith(s.book, q, m.fills, m.left) && Says(q, m.fills, m.left, m.left > 0 && q.price != MARKET, s.accepted + 1, s.matches, msgs)
  {
    MatchTradesWith(s, q, levels, capacity);
    EnterSays(s, q, capacity);
    EnterRests(s, q, levels, capacity);
    LegalPositive(s.book, s.accepted, levels);
    MatchLeaves(s.book, q.side, q.price, q.qty);
  }

  // ---- the two programs side by side ----

  /** The generator tracks a new order and the engine processes it. */
  method SendEnter(generator: FlowGenerator, engine: Engine, q: Request)
    requires generator.Valid() && engine.Valid() && engine.State() == generator.state
    requires MayEnter(engine.State(), q, engine.heads.Length)
    modifies generator, engine, engine.slots, engine.heads, engine.tails
    ensures generator.Valid() && engine.Valid()
    ensures engine.State() == generator.state <==> !NoRoom(old(engine.State()), q, engine.slots.Length)
  {
    SameUnlessFull(engine.State(), q, engine.heads.Length, engine.slots.Length);
    ghost var fills := generator.EnterOrder(q);
    var r := engine.InsertOrder(q);
  }

  /** The generator draws an open order to cancel and the engine processes the cancel. */
  method SendCancel(generator: FlowGenerator, engine: Engine, index: int)
    requires generator.Valid() && engine.Valid() && engine.State() == generator.state
    requires 0 <= index < |generator.openOrders|
    modifies generator, engine, engine.slots, engine.heads, engine.tails
    ensures generator.Valid() && engine.Valid()
    ensures engine.State() == generator.state
    ensures engine.State().book == old(engine.State().book) - {Id(old(generator.openOrders[index]))}
  {
    ghost var s, id := engine.State(), Id(generator.openOrders[index]);
    var account, urn := generator.CancelOrder(index);
    WholeCancel(s, account, urn, id, engine.heads.Length, engine.slots.Length);
    var r := engine.CancelOrder(account, urn, 0);
  }
}
