/** The two callbacks generation drives the automaton with. The streamer receives every
    generated id and advances the automaton on it; the logits processor, before each step,
    restricts the scores to the ids the automaton allows. */
module Streamer {
  import opened Wrappers
  import opened LL1
  import opened TokenMap
  import opened Automaton

  class BaseStreamer {
    const pda: PushdownAutomaton
    const eosTokenId: TokenId
    /** True until the first `put` that gets past the end-of-stack check: that call
        carries the prompt, not a generated id. */
    var isFirstCall: bool

    constructor(pda: PushdownAutomaton, eosTokenId: TokenId)
      ensures this.pda == pda && this.eosTokenId == eosTokenId && isFirstCall
    {
      this.pda := pda;
      this.eosTokenId := eosTokenId;
      isFirstCall := true;
    }

    /** `put(value)`, with `generated` the id `value[0]` carries and `fuel` the nesting
        the interpreter allows `next_state_terminal`. */
    method Put(generated: TokenId, fuel: nat) returns (r: Result<(), PdaError>)
      modifies this, pda
      ensures old(pda.stack) == [] ==> r.Success? && isFirstCall == old(isFirstCall) && pda.stack == old(pda.stack)
      ensures old(pda.stack) != [] && old(isFirstCall) ==> r.Success? && !isFirstCall && pda.stack == old(pda.stack)
      ensures old(pda.stack) != [] && !old(isFirstCall) && generated == eosTokenId ==>
                r.Success? && !isFirstCall && pda.stack == old(pda.stack)
      ensures old(pda.stack) != [] ==> !isFirstCall
      ensures pda.currentTerminals == old(pda.currentTerminals)
      ensures old(pda.stack) != [] && !old(isFirstCall) && generated != eosTokenId ==>
                var selected := Select(pda.tokensTerminals, pda.currentTerminals, generated);
                if selected.Failure? then r == Failure(selected.error) && pda.stack == old(pda.stack)
                else (r, pda.stack) == Advance(pda.grammar, old(pda.stack), selected.value, fuel)
    {
      if pda.Eos() {
        return Success(());
      }
      if !isFirstCall {
        if generated == eosTokenId {
          return Success(());
        }
        r := pda.NextState(generated, fuel);
        if r.Failure? {
          return;
        }
      } else {
        r := Success(());
      }
      isFirstCall := false;
    }
  }

  /** What the logits processor does with the scores of one step: keep only `ids`
      (`Some(ids)`), or leave them unchanged (`None`). */
  type Mask = Option<set<TokenId>>

  /** The logits processor's decision: the ids `get_tokens` allows when there are any;
      otherwise only the end-of-sequence id when the stack is empty; otherwise no mask. */
  method MaskScores(pda: PushdownAutomaton, eosTokenId: TokenId) returns (r: Result<Mask, PdaError>)
    modifies pda
    ensures pda.stack == old(pda.stack)
    ensures r.Success? <==> FrontierMapped(pda.terminalsTokens, Frontier(pda.grammar, pda.stack))
    ensures r.Success? ==>
              var allowed := Ids(pda.terminalsTokens, Frontier(pda.grammar, pda.stack));
              r.value == if allowed != {} then Some(allowed)
                         else if pda.stack == [] then Some({eosTokenId})
                         else None
    ensures r.Success? ==> pda.currentTerminals.Some?
                           && forall x :: x in pda.currentTerminals.value <==> x in Frontier(pda.grammar, pda.stack)
    ensures r.Failure? ==> pda.currentTerminals == old(pda.currentTerminals)
  {
    var tokens := pda.GetTokens();
    if tokens.Failure? {
      return Failure(tokens.error);
    }
    if tokens.value != {} {
      return Success(Some(tokens.value));
    }
    if pda.Eos() {
      return Success(Some({eosTokenId}));
    }
    return Success(None);
  }

  /** An empty stack has an empty frontier, so it masks everything but the end-of-sequence
      id; a terminal on top of the stack is the whole frontier. A non-empty stack can still
      have an empty frontier, when its top is a nonterminal whose row has no cell. */
  lemma EmptyFrontier(g: Table, stack: seq<Symbol>)
    ensures stack == [] ==> Frontier(g, stack) == {}
    ensures stack != [] && stack[|stack| - 1] !in g ==> Frontier(g, stack) == {stack[|stack| - 1]}
  {
    if stack != [] {
      var top := stack[|stack| - 1];
      if top !in g {
        ReachableSelf(g, top);
        forall n | n in Frontier(g, stack)
          ensures n == top
        {
          var p :| Path(g, p) && p[0] == top && p[|p| - 1] == n;
          if |p| > 1 {
            assert p[0] in g;
          }
        }
      }
    }
  }
}
