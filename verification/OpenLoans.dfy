/** The loans an instruction is handed: every open loan of the operator, and no other. */
module OpenLoans {
  import opened Outcomes
  import opened Numbers
  import opened Sorting
  import opened Loans

  /** A loan's place among the accounts, with what it is ordered by. */
  datatype Aged = Aged(position: nat, openedAt: int, nonce: int)

  predicate Older(a: Aged, b: Aged) {
    a.openedAt < b.openedAt || (a.openedAt == b.openedAt && a.nonce <= b.nonce)
  }

  /** Distinct accounts, each an open loan of the operator. */
  predicate AllOpenOf(keys: seq<nat>, loans: seq<LoanState>, operator: nat)
    requires |keys| == |loans|
  {
    forall i :: 0 <= i < |loans| ==>
      loans[i].operator == operator && loans[i].IsOpen() && keys[i] !in keys[..i]
  }

  /** The places of the loans repaid from `mint`, in the order handed over. */
  function RepaidFrom(loans: seq<LoanState>, mint: nat): seq<Aged> {
    if loans == [] then [] else
    var n := |loans| - 1;
    var before := RepaidFrom(loans[..n], mint);
    if loans[n].rewardMint == mint then before + [Aged(n, loans[n].openedAt, loans[n].nonce)] else before
  }

  function Places(aged: seq<Aged>): seq<nat> {
    seq(|aged|, i requires 0 <= i < |aged| => aged[i].position)
  }

  /** A record of the loan at its place, and that loan repaid from `mint`. */
  predicate Records(a: Aged, loans: seq<LoanState>, mint: nat) {
    && a.position < |loans|
    && loans[a.position].rewardMint == mint
    && a.openedAt == loans[a.position].openedAt
    && a.nonce == loans[a.position].nonce
  }

  lemma {:induction false} RepaidFromFacts(loans: seq<LoanState>, mint: nat)
    ensures forall a :: a in RepaidFrom(loans, mint) <==> Records(a, loans, mint)
    ensures forall i, j :: 0 <= i < j < |RepaidFrom(loans, mint)| ==>
              RepaidFrom(loans, mint)[i] != RepaidFrom(loans, mint)[j]
  {
    if loans == [] {
    } else {
      var n := |loans| - 1;
      RepaidFromFacts(loans[..n], mint);
      assert Aged(n, loans[n].openedAt, loans[n].nonce) !in RepaidFrom(loans[..n], mint);
      forall a: Aged ensures Records(a, loans, mint) <==>
        Records(a, loans[..n], mint) || (a == Aged(n, loans[n].openedAt, loans[n].nonce) && loans[n].rewardMint == mint)
      {
      }
    }
  }

  lemma OlderIsTotal()
    ensures TotalPreorder(Older)
  {
  }

  lemma {:induction false} SortedRecords(loans: seq<LoanState>, mint: nat)
    ensures var sorted := Sort(RepaidFrom(loans, mint), Older);
            && Ordered(sorted, Older)
            && (forall a :: a in sorted <==> Records(a, loans, mint))
            && (forall i, j :: 0 <= i < j < |sorted| ==> sorted[i] != sorted[j])
  {
    var found := RepaidFrom(loans, mint);
    var sorted := Sort(found, Older);
    RepaidFromFacts(loans, mint);
    SortKeeps(found, Older);
    OlderIsTotal();
    SortOrders(found, Older);
    DistinctByMultiset(found, sorted);
    SameElements(found, sorted);
  }

  predicate InRange(order: seq<nat>, n: nat) {
    forall i :: 0 <= i < |order| ==> order[i] < n
  }

  lemma {:induction false} PlacesInRange(loans: seq<LoanState>, mint: nat)
    ensures InRange(Places(Sort(RepaidFrom(loans, mint), Older)), |loans|)
  {
    var sorted := Sort(RepaidFrom(loans, mint), Older);
    SortedRecords(loans, mint);
    forall i | 0 <= i < |sorted| ensures Records(sorted[i], loans, mint) {
      assert sorted[i] in sorted;
    }
  }

  /** `open_loans_of`: the loans repaid from `mint`, oldest first, by their places. */
  function OldestFirst(keys: seq<nat>, loans: seq<LoanState>, operator: nat, openLoans: u32,
                       mint: nat): (r: Result<seq<nat>>)
    requires |keys| == |loans|
    ensures r.Ok? ==> InRange(r.value, |loans|)
  {
    if |loans| != openLoans || !AllOpenOf(keys, loans, operator) then Err(OpenLoansMismatch) else
    var order := Places(Sort(RepaidFrom(loans, mint), Older));
    assert InRange(order, |loans|) by { PlacesInRange(loans, mint); }
    Ok(order)
  }

  predicate NoYounger(a: LoanState, b: LoanState) {
    a.openedAt < b.openedAt || (a.openedAt == b.openedAt && a.nonce <= b.nonce)
  }

  /** The list a sweep works on: no loan twice, every loan of the token and no other, and each
      no younger than the next. */
  lemma OldestFirstIsComplete(keys: seq<nat>, loans: seq<LoanState>, operator: nat, openLoans: u32, mint: nat)
    requires |keys| == |loans| && OldestFirst(keys, loans, operator, openLoans, mint).Ok?
    ensures var order := OldestFirst(keys, loans, operator, openLoans, mint).value;
            && InRange(order, |loans|)
            && (forall p :: p in order <==> 0 <= p < |loans| && loans[p].rewardMint == mint)
            && (forall i, j :: 0 <= i < j < |order| ==> order[i] != order[j])
            && (forall i, j :: 0 <= i < j < |order| ==> NoYounger(loans[order[i]], loans[order[j]]))
  {
    var sorted := Sort(RepaidFrom(loans, mint), Older);
    var order := Places(sorted);
    SortedRecords(loans, mint);
    forall p | 0 <= p < |loans| && loans[p].rewardMint == mint ensures p in order {
      var a := Aged(p, loans[p].openedAt, loans[p].nonce);
      assert Records(a, loans, mint);
      var i :| 0 <= i < |sorted| && sorted[i] == a;
      assert order[i] == p;
    }
    forall i | 0 <= i < |order| ensures Records(sorted[i], loans, mint) && order[i] == sorted[i].position {
      assert sorted[i] in sorted;
    }
    forall i, j | 0 <= i < j < |order| ensures order[i] != order[j] && NoYounger(loans[order[i]], loans[order[j]]) {
      assert Records(sorted[i], loans, mint) && Records(sorted[j], loans, mint);
      assert Older(sorted[i], sorted[j]) && sorted[i] != sorted[j];
    }
  }
}
