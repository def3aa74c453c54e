/**
 * What a transaction did to a wallet, and whether that is the swap it claimed (packages/solana/src/derive-effects.ts).
 */
module Effects {
  import opened Results

  type Mint = string

  const WRAPPED_SOL: Mint := "So11111111111111111111111111111111111111112"

  /** One token account; a wallet may hold several of one token. */
  datatype TokenBalance = TokenBalance(mint: Mint, amount: nat)

  datatype Wallet = Wallet(lamports: nat, tokens: seq<TokenBalance>)

  datatype TokenDelta = TokenDelta(mint: Mint, delta: int)

  datatype WalletEffects = WalletEffects(lamports: int, tokens: seq<TokenDelta>)

  // ----- what a wallet holds, by mint -----

  function SumOf(tokens: seq<TokenBalance>, mint: Mint): nat {
    if tokens == [] then 0
    else
      var last := tokens[|tokens| - 1];
      SumOf(tokens[..|tokens| - 1], mint) + if last.mint == mint then last.amount else 0
  }

  /** The mints in the order they are first seen, which is the order a map of them is walked in. */
  function FirstSeen(mints: seq<Mint>): seq<Mint> {
    if mints == [] then []
    else
      var before, last := FirstSeen(mints[..|mints| - 1]), mints[|mints| - 1];
      if last in before then before else before + [last]
  }

  function MintsOf(tokens: seq<TokenBalance>): (mints: seq<Mint>)
    ensures |mints| == |tokens| && forall i :: 0 <= i < |tokens| ==> mints[i] == tokens[i].mint
  {
    seq(|tokens|, i requires 0 <= i < |tokens| => tokens[i].mint)
  }

  lemma {:induction false} FirstSeenIsEachOnce(mints: seq<Mint>)
    ensures forall m :: m in FirstSeen(mints) <==> m in mints
    ensures forall i, j :: 0 <= i < j < |FirstSeen(mints)| ==> FirstSeen(mints)[i] != FirstSeen(mints)[j]
  {
    if mints != [] {
      FirstSeenIsEachOnce(mints[..|mints| - 1]);
      assert mints == mints[..|mints| - 1] + [mints[|mints| - 1]];
    }
  }

  lemma {:induction false} NothingOfAnUnseenMint(tokens: seq<TokenBalance>, mint: Mint)
    requires mint !in MintsOf(tokens)
    ensures SumOf(tokens, mint) == 0
  {
    if tokens != [] {
      var n := |tokens| - 1;
      assert MintsOf(tokens)[n] == tokens[n].mint;
      assert forall i :: 0 <= i < n ==> MintsOf(tokens[..n])[i] == MintsOf(tokens)[i];
      NothingOfAnUnseenMint(tokens[..n], mint);
    }
  }

  /** The map the first loop fills: its keys in insertion order, and the total under each. */
  method Totals(tokens: seq<TokenBalance>) returns (order: seq<Mint>, byMint: map<Mint, nat>)
    ensures order == FirstSeen(MintsOf(tokens))
    ensures forall m :: m in byMint <==> m in order
    ensures forall m :: m in byMint ==> byMint[m] == SumOf(tokens, m)
  {
    order, byMint := [], map[];
    for i := 0 to |tokens|
      invariant order == FirstSeen(MintsOf(tokens[..i]))
      invariant forall m :: m in byMint <==> m in order
      invariant forall m :: m in byMint ==> byMint[m] == SumOf(tokens[..i], m)
    {
      var token := tokens[i];
      assert tokens[..i + 1][..i] == tokens[..i];
      assert MintsOf(tokens[..i + 1])[..i] == MintsOf(tokens[..i]);
      if token.mint in byMint {
        byMint := byMint[token.mint := byMint[token.mint] + token.amount];
      } else {
        FirstSeenIsEachOnce(MintsOf(tokens[..i]));
        NothingOfAnUnseenMint(tokens[..i], token.mint);
        order := order + [token.mint];
        byMint := byMint[token.mint := token.amount];
      }
    }
    assert tokens[..|tokens|] == tokens;
  }

  // ----- what changed -----

  function Change(before: Wallet, after: Wallet, mint: Mint): int {
    SumOf(after.tokens, mint) - SumOf(before.tokens, mint)
  }

  /** The mints whose totals changed, each once, in the order given. */
  function Moved(before: Wallet, after: Wallet, mints: seq<Mint>): seq<TokenDelta> {
    if mints == [] then []
    else
      var rest, last := Moved(before, after, mints[..|mints| - 1]), mints[|mints| - 1];
      if last !in mints[..|mints| - 1] && Change(before, after, last) != 0 then
        rest + [TokenDelta(last, Change(before, after, last))]
      else rest
  }

  function EffectsOf(before: Wallet, after: Wallet): WalletEffects {
    WalletEffects(after.lamports - before.lamports,
                  Moved(before, after, FirstSeen(MintsOf(before.tokens)) + FirstSeen(MintsOf(after.tokens))))
  }

  /** Exactly the mints that moved are listed, each once, with the whole of what it moved by. */
  lemma {:induction false} MovedListsEachChangeOnce(before: Wallet, after: Wallet, mints: seq<Mint>)
    ensures forall i :: 0 <= i < |Moved(before, after, mints)| ==>
              var d := Moved(before, after, mints)[i];
              d.mint in mints && d.delta == Change(before, after, d.mint) != 0
    ensures forall i, j :: 0 <= i < j < |Moved(before, after, mints)| ==>
              Moved(before, after, mints)[i].mint != Moved(before, after, mints)[j].mint
    ensures forall m :: m in mints && Change(before, after, m) != 0 ==>
              TokenDelta(m, Change(before, after, m)) in Moved(before, after, mints)
  {
    if mints != [] {
      MovedListsEachChangeOnce(before, after, mints[..|mints| - 1]);
      assert mints == mints[..|mints| - 1] + [mints[|mints| - 1]];
    }
  }

  predicate Lists(tokens: seq<TokenDelta>, mint: Mint) {
    exists k :: 0 <= k < |tokens| && tokens[k].mint == mint
  }

  /** Skipping a mint already listed is skipping one already seen, since one seen and not listed did not move. */
  lemma MovedOneMore(before: Wallet, after: Wallet, mints: seq<Mint>, i: nat, tokens: seq<TokenDelta>, change: int)
    requires i < |mints|
    requires tokens == Moved(before, after, mints[..i])
    requires change == Change(before, after, mints[i])
    ensures Moved(before, after, mints[..i + 1])
         == if Lists(tokens, mints[i]) || change == 0 then tokens else tokens + [TokenDelta(mints[i], change)]
  {
    assert mints[..i + 1][..i] == mints[..i];
    MovedListsEachChangeOnce(before, after, mints[..i]);
  }

  function TotalIn(byMint: map<Mint, nat>, mint: Mint): int {
    if mint in byMint then byMint[mint] else 0
  }

  method EffectsFrom(before: Wallet, after: Wallet) returns (effects: WalletEffects)
    ensures effects == EffectsOf(before, after)
  {
    var wasOrder, was := Totals(before.tokens);
    var nowOrder, now := Totals(after.tokens);
    var mints := wasOrder + nowOrder;
    var tokens: seq<TokenDelta> := [];
    SeenAreHeld(before.tokens);
    SeenAreHeld(after.tokens);
    for i := 0 to |mints|
      invariant tokens == Moved(before, after, mints[..i])
    {
      var mint := mints[i];
      var delta := TotalIn(now, mint) - TotalIn(was, mint);
      MovedOneMore(before, after, mints, i, tokens, delta);
      if !Lists(tokens, mint) && delta != 0 {
        tokens := tokens + [TokenDelta(mint, delta)];
      }
    }
    assert mints[..|mints|] == mints;
    return WalletEffects(after.lamports - before.lamports, tokens);
  }

  /** A mint that is in no account counts as nothing. */
  lemma SeenAreHeld(tokens: seq<TokenBalance>)
    ensures forall m :: m !in FirstSeen(MintsOf(tokens)) ==> SumOf(tokens, m) == 0
  {
    FirstSeenIsEachOnce(MintsOf(tokens));
    forall m | m !in FirstSeen(MintsOf(tokens))
      ensures SumOf(tokens, m) == 0
    {
      NothingOfAnUnseenMint(tokens, m);
    }
  }

  function DeltaOf(tokens: seq<TokenDelta>, mint: Mint): int {
    if tokens == [] then 0
    else if tokens[0].mint == mint then tokens[0].delta
    else DeltaOf(tokens[1..], mint)
  }

  lemma {:induction false} DeltaOfFound(tokens: seq<TokenDelta>, mint: Mint)
    ensures (forall i :: 0 <= i < |tokens| ==> tokens[i].mint != mint) ==> DeltaOf(tokens, mint) == 0
    ensures forall i | 0 <= i < |tokens| && tokens[i].mint == mint
        && (forall j :: 0 <= j < i ==> tokens[j].mint != mint) ::
              DeltaOf(tokens, mint) == tokens[i].delta
  {
    if tokens != [] && tokens[0].mint != mint {
      DeltaOfFound(tokens[1..], mint);
      forall i | 0 <= i < |tokens| && tokens[i].mint == mint && (forall j :: 0 <= j < i ==> tokens[j].mint != mint)
        ensures DeltaOf(tokens, mint) == tokens[i].delta
      {
        assert tokens[1..][i - 1] == tokens[i];
        assert forall j :: 0 <= j < i - 1 ==> tokens[1..][j] == tokens[j + 1];
      }
    }
  }

  /** Looked up by mint, the listed changes take the wallet before to the wallet after, for every token there is. */
  lemma EffectsAccountForEverything(before: Wallet, after: Wallet, mint: Mint)
    ensures SumOf(before.tokens, mint) + DeltaOf(EffectsOf(before, after).tokens, mint) == SumOf(after.tokens, mint)
    ensures before.lamports + EffectsOf(before, after).lamports == after.lamports
  {
    var mints := FirstSeen(MintsOf(before.tokens)) + FirstSeen(MintsOf(after.tokens));
    var tokens := EffectsOf(before, after).tokens;
    MovedListsEachChangeOnce(before, after, mints);
    SeenAreHeld(before.tokens);
    SeenAreHeld(after.tokens);
    DeltaOfFound(tokens, mint);
    if Change(before, after, mint) != 0 {
      var i :| 0 <= i < |tokens| && tokens[i] == TokenDelta(mint, Change(before, after, mint));
      assert forall j :: 0 <= j < i ==> tokens[j].mint != mint;
    }
  }

  // ----- the verdict -----

  function GainOf(effects: WalletEffects, mint: Mint): int {
    var token := DeltaOf(effects.tokens, mint);
    if mint == WRAPPED_SOL then token + effects.lamports else token
  }

  datatype SwapClaim =
    SwapClaim(inputMint: Mint, outputMint: Mint, inputAmount: nat, minimumOutputAmount: nat, lamportsAllowed: nat)

  datatype SwapVerdict =
    | Ok
    | NothingMoved
    | NothingSpent
    | SpentOtherThanClaimed
    | ReceivedTooLittle
    | Leaked(mint: Mint)
    | LamportsDrained

  function FirstLeak(tokens: seq<TokenDelta>, claim: SwapClaim): Option<TokenDelta> {
    if tokens == [] then None
    else if tokens[0].delta < 0 && tokens[0].mint != claim.inputMint && tokens[0].mint != claim.outputMint then
      Some(tokens[0])
    else FirstLeak(tokens[1..], claim)
  }

  function JudgeSwap(effects: WalletEffects, claim: SwapClaim): SwapVerdict {
    var inSol, outSol := claim.inputMint == WRAPPED_SOL, claim.outputMint == WRAPPED_SOL;
    var spent := -GainOf(effects, claim.inputMint);
    var received := GainOf(effects, claim.outputMint);
    var leaked := FirstLeak(effects.tokens, claim);
    if |effects.tokens| == 0 && effects.lamports == 0 then NothingMoved
    else if spent <= 0 then NothingSpent
    else if spent < claim.inputAmount
      || spent > (if inSol then claim.inputAmount + claim.lamportsAllowed else claim.inputAmount) then
      SpentOtherThanClaimed
    else if received < claim.minimumOutputAmount then ReceivedTooLittle
    else if leaked.Some? then Leaked(leaked.value.mint)
    else if !inSol && !outSol && effects.lamports < 0 && -effects.lamports > claim.lamportsAllowed then LamportsDrained
    else Ok
  }

  lemma {:induction false} LeakFound(tokens: seq<TokenDelta>, claim: SwapClaim)
    ensures FirstLeak(tokens, claim).None?
       <==> forall i :: 0 <= i < |tokens| && tokens[i].mint != claim.inputMint && tokens[i].mint != claim.outputMint ==>
              tokens[i].delta >= 0
  {
    if tokens != [] {
      LeakFound(tokens[1..], claim);
      assert forall i :: 1 <= i < |tokens| ==> tokens[i] == tokens[1..][i - 1];
    }
  }

  /** What the wallet holds of a token, counting native and wrapped SOL as one. */
  function Holds(wallet: Wallet, mint: Mint): nat {
    SumOf(wallet.tokens, mint) + if mint == WRAPPED_SOL then wallet.lamports else 0
  }

  lemma GainIsMeasured(before: Wallet, after: Wallet, mint: Mint)
    ensures GainOf(EffectsOf(before, after), mint) == Holds(after, mint) - Holds(before, mint)
  {
    EffectsAccountForEverything(before, after, mint);
  }

  lemma NoLeakMeans(before: Wallet, after: Wallet, claim: SwapClaim)
    ensures FirstLeak(EffectsOf(before, after).tokens, claim).None?
       <==> forall m :: m != claim.inputMint && m != claim.outputMint ==>
         SumOf(after.tokens, m) >= SumOf(before.tokens, m)
  {
    var mints := FirstSeen(MintsOf(before.tokens)) + FirstSeen(MintsOf(after.tokens));
    var tokens := EffectsOf(before, after).tokens;
    LeakFound(tokens, claim);
    MovedListsEachChangeOnce(before, after, mints);
    SeenAreHeld(before.tokens);
    SeenAreHeld(after.tokens);
    if forall i :: 0 <= i < |tokens| && tokens[i].mint != claim.inputMint && tokens[i].mint != claim.outputMint ==>
        tokens[i].delta >= 0 {
      forall m | m != claim.inputMint && m != claim.outputMint
        ensures SumOf(after.tokens, m) >= SumOf(before.tokens, m)
      {
        if Change(before, after, m) != 0 {
          assert TokenDelta(m, Change(before, after, m)) in tokens;
        }
      }
    } else {
      var i :| 0 <= i < |tokens| && tokens[i].mint != claim.inputMint && tokens[i].mint != claim.outputMint
          && tokens[i].delta < 0;
      var m := tokens[i].mint;
      assert tokens[i].delta == Change(before, after, m);
      assert SumOf(after.tokens, m) < SumOf(before.tokens, m);
    }
  }

  /** A swap is accepted exactly when, measured on the wallet itself, all of this holds. */
  lemma AcceptedExactlyWhen(before: Wallet, after: Wallet, claim: SwapClaim)
    ensures JudgeSwap(EffectsOf(before, after), claim) == Ok <==>
              var spent := Holds(before, claim.inputMint) - Holds(after, claim.inputMint);
              && spent > 0
              && (claim.inputMint != WRAPPED_SOL ==> spent == claim.inputAmount)
              && (claim.inputMint == WRAPPED_SOL ==>
                  claim.inputAmount <= spent <= claim.inputAmount + claim.lamportsAllowed)
              && Holds(after, claim.outputMint) - Holds(before, claim.outputMint) >= claim.minimumOutputAmount
              && (forall m :: m != claim.inputMint && m != claim.outputMint ==>
                  SumOf(after.tokens, m) >= SumOf(before.tokens, m))
              && (claim.inputMint != WRAPPED_SOL && claim.outputMint != WRAPPED_SOL ==>
                    before.lamports - after.lamports <= claim.lamportsAllowed)
  {
    GainIsMeasured(before, after, claim.inputMint);
    GainIsMeasured(before, after, claim.outputMint);
    NoLeakMeans(before, after, claim);
  }


  /** Nothing moved: every token and SOL are as they were. */
  ghost predicate Untouched(before: Wallet, after: Wallet) {
    after.lamports == before.lamports && forall m :: SumOf(after.tokens, m) == SumOf(before.tokens, m)
  }

  /** What was claimed left: to the unit, or within what fees and rent allow where SOL itself was spent. */
  predicate SpentAsClaimed(claim: SwapClaim, spent: int) {
    if claim.inputMint == WRAPPED_SOL then claim.inputAmount <= spent <= claim.inputAmount + claim.lamportsAllowed
    else spent == claim.inputAmount
  }

  lemma NothingMovedExactlyWhen(before: Wallet, after: Wallet)
    ensures EffectsOf(before, after).tokens == [] && EffectsOf(before, after).lamports == 0
       <==> Untouched(before, after)
  {
    var mints := FirstSeen(MintsOf(before.tokens)) + FirstSeen(MintsOf(after.tokens));
    MovedListsEachChangeOnce(before, after, mints);
    SeenAreHeld(before.tokens);
    SeenAreHeld(after.tokens);
    if EffectsOf(before, after).tokens == [] {
      assert forall m :: m in mints ==> Change(before, after, m) == 0;
      forall m
        ensures Change(before, after, m) == 0
      {
        assert m !in mints ==> m !in FirstSeen(MintsOf(before.tokens)) && m !in FirstSeen(MintsOf(after.tokens));
      }
      assert forall m :: Change(before, after, m) == 0 ==> SumOf(after.tokens, m) == SumOf(before.tokens, m);
    } else {
      assert EffectsOf(before, after).tokens[0].delta != 0;
    }
  }

  lemma {:induction false} FirstLeakIsListed(tokens: seq<TokenDelta>, claim: SwapClaim)
    requires FirstLeak(tokens, claim).Some?
    ensures var leak := FirstLeak(tokens, claim).value;
            leak in tokens && leak.delta < 0 && leak.mint != claim.inputMint && leak.mint != claim.outputMint
  {
    if !(tokens[0].delta < 0 && tokens[0].mint != claim.inputMint && tokens[0].mint != claim.outputMint) {
      FirstLeakIsListed(tokens[1..], claim);
    }
  }

  lemma FirstLeakFell(before: Wallet, after: Wallet, claim: SwapClaim)
    ensures var leak := FirstLeak(EffectsOf(before, after).tokens, claim);
            leak.Some? ==>
              && leak.value.mint != claim.inputMint && leak.value.mint != claim.outputMint
              && SumOf(after.tokens, leak.value.mint) < SumOf(before.tokens, leak.value.mint)
  {
    if FirstLeak(EffectsOf(before, after).tokens, claim).Some? {
      FirstLeakIsListed(EffectsOf(before, after).tokens, claim);
      MovedListsEachChangeOnce(before, after, FirstSeen(MintsOf(before.tokens)) + FirstSeen(MintsOf(after.tokens)));
    }
  }

  /** A swap is refused for the first of these that is so, measured on the wallet itself. */
  lemma RefusedForTheFirstThatIsSo(before: Wallet, after: Wallet, claim: SwapClaim)
    ensures var verdict := JudgeSwap(EffectsOf(before, after), claim);
            var spent := Holds(before, claim.inputMint) - Holds(after, claim.inputMint);
            var received := Holds(after, claim.outputMint) - Holds(before, claim.outputMint);
            && (verdict == NothingMoved <==> Untouched(before, after))
            && (verdict == NothingSpent <==> !Untouched(before, after) && spent <= 0)
            && (verdict == SpentOtherThanClaimed <==> spent > 0 && !SpentAsClaimed(claim, spent))
            && (verdict == ReceivedTooLittle <==>
                spent > 0 && SpentAsClaimed(claim, spent) && received < claim.minimumOutputAmount)
            && (verdict.Leaked? ==>
                  && spent > 0 && SpentAsClaimed(claim, spent) && received >= claim.minimumOutputAmount
                  && verdict.mint != claim.inputMint && verdict.mint != claim.outputMint
                  && SumOf(after.tokens, verdict.mint) < SumOf(before.tokens, verdict.mint))
            && (verdict == LamportsDrained ==>
                  && claim.inputMint != WRAPPED_SOL && claim.outputMint != WRAPPED_SOL
                  && before.lamports - after.lamports > claim.lamportsAllowed)
  {
    GainIsMeasured(before, after, claim.inputMint);
    GainIsMeasured(before, after, claim.outputMint);
    NothingMovedExactlyWhen(before, after);
    FirstLeakFell(before, after, claim);
  }
}
