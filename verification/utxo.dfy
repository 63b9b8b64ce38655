/** `UTXOSet`: the chainstate bucket as an index of unspent outputs. Each entry holds
    the outputs of one transaction still unspent, in the compacted order `findAllUTXOs`
    stores them; a position in an entry is a position in that stored array, which is
    what `findSpendableOutputs` hands out and what `update` removes by. */
module UtxoIndex {
  import opened Bytes
  import opened Outcomes
  import opened Outputs
  import opened Transactions
  import opened Blocks
  import opened Store
  import opened Grouping
  import opened Ledger
  import opened Chain

  type Chainstate = map<seq<Byte>, seq<TXOutput>>

  /** order lists every key of m exactly once: one iteration order of a HashMap. */
  predicate Enumerates<V>(order: seq<seq<Byte>>, m: map<seq<Byte>, V>)
  {
    && (forall i, j | 0 <= i < j < |order| :: order[i] != order[j])
    && (forall k | k in m :: k in order)
    && (forall i | 0 <= i < |order| :: order[i] in m)
  }

  /** The stored array under k, empty when there is none. */
  function Entry(cs: Chainstate, k: seq<Byte>): seq<TXOutput>
  {
    if k in cs then cs[k] else []
  }

  /** An output as the scan of the chainstate meets it: the entry's key, the position
      in the stored array, and the output. */
  datatype Candidate = Candidate(txId: seq<Byte>, outId: nat, output: TXOutput)

  function EntryCandidates(txId: seq<Byte>, outs: seq<TXOutput>): (r: seq<Candidate>)
    ensures |r| == |outs|
    ensures forall i | 0 <= i < |outs| :: r[i] == Candidate(txId, i, outs[i])
  {
    seq(|outs|, i requires 0 <= i < |outs| => Candidate(txId, i, outs[i]))
  }

  /** Every stored output, entry by entry in the iteration order and by position within
      an entry. */
  function Candidates(order: seq<seq<Byte>>, cs: Chainstate): seq<Candidate>
  {
    if order == [] then []
    else
      var n := |order| - 1;
      Candidates(order[..n], cs) + EntryCandidates(order[n], Entry(cs, order[n]))
  }

  /** A candidate sits in the index: under its key, at its position. */
  lemma {:induction false} CandidatesMembership(order: seq<seq<Byte>>, cs: Chainstate, c: Candidate)
    ensures c in Candidates(order, cs) <==>
      c.txId in order && c.outId < |Entry(cs, c.txId)| && Entry(cs, c.txId)[c.outId] == c.output
    decreases |order|
  {
    if order != [] {
      var n := |order| - 1;
      CandidatesMembership(order[..n], cs, c);
      assert order == order[..n] + [order[n]];
      if c in EntryCandidates(order[n], Entry(cs, order[n])) {
        var i :| 0 <= i < |Entry(cs, order[n])| && EntryCandidates(order[n], Entry(cs, order[n]))[i] == c;
      }
      if c.txId == order[n] && c.outId < |Entry(cs, c.txId)| && Entry(cs, c.txId)[c.outId] == c.output {
        assert EntryCandidates(order[n], Entry(cs, order[n]))[c.outId] == c;
      }
    }
  }

  /** The candidates locked to pubKeyHash, in scan order. */
  function Locked(cands: seq<Candidate>, pubKeyHash: seq<Byte>): (r: seq<Candidate>)
    ensures |r| <= |cands|
  {
    if cands == [] then []
    else
      var n := |cands| - 1;
      Locked(cands[..n], pubKeyHash) + (if IsLockedWithKey(cands[n].output, pubKeyHash) then [cands[n]] else [])
  }

  lemma {:induction false} LockedMembership(cands: seq<Candidate>, pubKeyHash: seq<Byte>, c: Candidate)
    ensures c in Locked(cands, pubKeyHash) <==> c in cands && IsLockedWithKey(c.output, pubKeyHash)
    decreases |cands|
  {
    if cands != [] {
      var n := |cands| - 1;
      LockedMembership(cands[..n], pubKeyHash, c);
      assert cands == cands[..n] + [cands[n]];
    }
  }

  /** The state of `findSpendableOutputs`: `accumulated`, and the candidates selected so
      far in the order they were selected. */
  datatype Selection = Selection(accumulated: Int32, picked: seq<Candidate>)

  /** One iteration of the inner loop: a locked output is taken while the total is below
      amount; `accumulated += value` wraps as Java's int does. */
  function Pick(s: Selection, c: Candidate, pubKeyHash: seq<Byte>, amount: Int32): Selection
  {
    if IsLockedWithKey(c.output, pubKeyHash) && s.accumulated < amount
    then Selection(Wrap32(s.accumulated + c.output.value), s.picked + [c])
    else s
  }

  /** The scan from state s over cands. The inner loop's `break` once the total reaches
      amount is not written here: from then on no candidate passes the test anyway
      (`SelectSaturated`). */
  function SelectFrom(s: Selection, cands: seq<Candidate>, pubKeyHash: seq<Byte>, amount: Int32): Selection
  {
    if cands == [] then s
    else
      var n := |cands| - 1;
      Pick(SelectFrom(s, cands[..n], pubKeyHash, amount), cands[n], pubKeyHash, amount)
  }

  function Select(cands: seq<Candidate>, pubKeyHash: seq<Byte>, amount: Int32): Selection
  {
    SelectFrom(Selection(0, []), cands, pubKeyHash, amount)
  }

  /** The sum of the values, wrapping at every addition as Java's int does. */
  function Total(picked: seq<Candidate>): Int32
  {
    if picked == [] then 0
    else
      var n := |picked| - 1;
      Wrap32(Total(picked[..n]) + picked[n].output.value)
  }

  lemma SelectSnoc(s: Selection, cands: seq<Candidate>, i: nat, pubKeyHash: seq<Byte>, amount: Int32)
    requires i < |cands|
    ensures SelectFrom(s, cands[..i + 1], pubKeyHash, amount)
      == Pick(SelectFrom(s, cands[..i], pubKeyHash, amount), cands[i], pubKeyHash, amount)
  {
    assert cands[..i + 1][..i] == cands[..i];
  }

  /** Scanning a + b is scanning a, then b. */
  lemma {:induction false} SelectFromAppend(s: Selection, a: seq<Candidate>, b: seq<Candidate>, pubKeyHash: seq<Byte>, amount: Int32)
    ensures SelectFrom(s, a + b, pubKeyHash, amount) == SelectFrom(SelectFrom(s, a, pubKeyHash, amount), b, pubKeyHash, amount)
    decreases |b|
  {
    if b == [] {
      assert a + b == a;
    } else {
      var n := |b| - 1;
      assert (a + b)[..|a| + n] == a + b[..n];
      SelectFromAppend(s, a, b[..n], pubKeyHash, amount);
    }
  }

  /** Once the total has reached amount nothing more is taken: the `break` changes
      nothing. */
  lemma {:induction false} SelectSaturated(s: Selection, cands: seq<Candidate>, pubKeyHash: seq<Byte>, amount: Int32)
    requires s.accumulated >= amount
    ensures SelectFrom(s, cands, pubKeyHash, amount) == s
    decreases |cands|
  {
    if cands != [] {
      SelectSaturated(s, cands[..|cands| - 1], pubKeyHash, amount);
    }
  }

  /** `accumulated` is the wrapping total of the selected values. */
  lemma {:induction false} SelectTotal(cands: seq<Candidate>, pubKeyHash: seq<Byte>, amount: Int32)
    ensures Select(cands, pubKeyHash, amount).accumulated == Total(Select(cands, pubKeyHash, amount).picked)
    decreases |cands|
  {
    if cands != [] {
      var n := |cands| - 1;
      SelectTotal(cands[..n], pubKeyHash, amount);
      var s := Select(cands[..n], pubKeyHash, amount);
      if IsLockedWithKey(cands[n].output, pubKeyHash) && s.accumulated < amount {
        assert (s.picked + [cands[n]])[..|s.picked|] == s.picked;
      }
    }
  }

  /** Each selected output was taken while the total of those selected before it was
      below amount. */
  lemma {:induction false} SelectBelow(cands: seq<Candidate>, pubKeyHash: seq<Byte>, amount: Int32)
    ensures var p := Select(cands, pubKeyHash, amount).picked;
      forall i | 0 <= i < |p| :: Total(p[..i]) < amount
    decreases |cands|
  {
    if cands != [] {
      var n := |cands| - 1;
      SelectBelow(cands[..n], pubKeyHash, amount);
      SelectTotal(cands[..n], pubKeyHash, amount);
      var p := Select(cands[..n], pubKeyHash, amount).picked;
      var p' := Select(cands, pubKeyHash, amount).picked;
      if p' != p {
        assert p' == p + [cands[n]];
        forall i | 0 <= i < |p'|
          ensures Total(p'[..i]) < amount
        {
          if i < |p| {
            assert p'[..i] == p[..i];
          } else {
            assert p'[..i] == p;
          }
        }
      }
    }
  }

  /** The selection is a prefix of the locked candidates, and a proper one only when the
      total reached amount. */
  lemma {:induction false} SelectPrefix(cands: seq<Candidate>, pubKeyHash: seq<Byte>, amount: Int32)
    ensures var p := Select(cands, pubKeyHash, amount).picked;
      && p <= Locked(cands, pubKeyHash)
      && (|p| < |Locked(cands, pubKeyHash)| ==> Total(p) >= amount)
    decreases |cands|
  {
    if cands != [] {
      var n := |cands| - 1;
      var c := cands[n];
      SelectPrefix(cands[..n], pubKeyHash, amount);
      SelectTotal(cands[..n], pubKeyHash, amount);
      var s := Select(cands[..n], pubKeyHash, amount);
      var lk := Locked(cands[..n], pubKeyHash);
      var locked := IsLockedWithKey(c.output, pubKeyHash);
      assert Locked(cands, pubKeyHash) == lk + (if locked then [c] else []);
      if locked && s.accumulated < amount {
        assert s.picked == lk;
      } else {
        assert Select(cands, pubKeyHash, amount) == s;
      }
    }
  }

  /** What the scan selects, independently of how it scans: a prefix of the locked
      candidates, each taken while the total of those before it was below amount, and
      shorter than all of them only when the total reached amount; `accumulated` is the
      (wrapping) total of the selected values. */
  lemma SelectMeaning(cands: seq<Candidate>, pubKeyHash: seq<Byte>, amount: Int32)
    ensures var s := Select(cands, pubKeyHash, amount);
      && s.picked <= Locked(cands, pubKeyHash)
      && (forall i | 0 <= i < |s.picked| :: Total(s.picked[..i]) < amount)
      && (|s.picked| < |Locked(cands, pubKeyHash)| ==> Total(s.picked) >= amount)
      && s.accumulated == Total(s.picked)
  {
    SelectTotal(cands, pubKeyHash, amount);
    SelectBelow(cands, pubKeyHash, amount);
    SelectPrefix(cands, pubKeyHash, amount);
  }

  /** With a non-positive amount nothing is selected and `accumulated` stays 0. */
  lemma SelectNothing(cands: seq<Candidate>, pubKeyHash: seq<Byte>, amount: Int32)
    requires amount <= 0
    ensures Select(cands, pubKeyHash, amount) == Selection(0, [])
  {
    SelectBelow(cands, pubKeyHash, amount);
    SelectTotal(cands, pubKeyHash, amount);
    var p := Select(cands, pubKeyHash, amount).picked;
    assert p[..0] == [];
    assert Total(p[..0]) == 0;
  }

  /** On return either the total reached amount or every locked output was selected. */
  lemma SelectEnoughOrAll(cands: seq<Candidate>, pubKeyHash: seq<Byte>, amount: Int32)
    ensures var s := Select(cands, pubKeyHash, amount);
      s.accumulated >= amount || s.picked == Locked(cands, pubKeyHash)
  {
    SelectPrefix(cands, pubKeyHash, amount);
    SelectTotal(cands, pubKeyHash, amount);
  }

  /** "Not enough funds" means what it says: when the scan ends below amount, the
      (wrapping) total of every output locked to the key is below amount. */
  lemma ShortfallIsBalance(cands: seq<Candidate>, pubKeyHash: seq<Byte>, amount: Int32)
    ensures Select(cands, pubKeyHash, amount).accumulated < amount ==> Total(Locked(cands, pubKeyHash)) < amount
  {
    SelectEnoughOrAll(cands, pubKeyHash, amount);
    SelectTotal(cands, pubKeyHash, amount);
  }

  /** A positive amount that is reached is reached by at least one selected output. */
  lemma ReachedBySome(cands: seq<Candidate>, pubKeyHash: seq<Byte>, amount: Int32)
    requires amount >= 1
    ensures Select(cands, pubKeyHash, amount).accumulated >= amount ==> Select(cands, pubKeyHash, amount).picked != []
  {
    SelectTotal(cands, pubKeyHash, amount);
  }

  /** Within one transaction's entry, positions come in increasing order. */
  ghost predicate Ascending(cands: seq<Candidate>)
  {
    forall i, j | 0 <= i < j < |cands| && cands[i].txId == cands[j].txId :: cands[i].outId < cands[j].outId
  }

  /** The scan meets each entry once (the keys are distinct) and walks its positions
      upwards. */
  lemma {:induction false} CandidatesAscending(order: seq<seq<Byte>>, cs: Chainstate)
    requires forall i, j | 0 <= i < j < |order| :: order[i] != order[j]
    ensures Ascending(Candidates(order, cs))
    decreases |order|
  {
    if order != [] {
      var n := |order| - 1;
      CandidatesAscending(order[..n], cs);
      var a := Candidates(order[..n], cs);
      var b := EntryCandidates(order[n], Entry(cs, order[n]));
      forall i | 0 <= i < |a|
        ensures a[i].txId != order[n]
      {
        CandidatesMembership(order[..n], cs, a[i]);
      }
      var ab := a + b;
      forall i, j | 0 <= i < j < |ab| && ab[i].txId == ab[j].txId
        ensures ab[i].outId < ab[j].outId
      {
        if j < |a| {
          assert ab[i] == a[i] && ab[j] == a[j];
        } else if i >= |a| {
          assert ab[i] == b[i - |a|] && ab[j] == b[j - |a|];
        }
      }
    }
  }

  /** Keeping the locked candidates keeps the order of positions. */
  lemma {:induction false} LockedAscending(cands: seq<Candidate>, pubKeyHash: seq<Byte>)
    requires Ascending(cands)
    ensures Ascending(Locked(cands, pubKeyHash))
    decreases |cands|
  {
    if cands != [] {
      var n := |cands| - 1;
      assert Ascending(cands[..n]);
      LockedAscending(cands[..n], pubKeyHash);
      var lk := Locked(cands[..n], pubKeyHash);
      if IsLockedWithKey(cands[n].output, pubKeyHash) {
        var l := lk + [cands[n]];
        forall i | 0 <= i < |lk|
          ensures lk[i].txId == cands[n].txId ==> lk[i].outId < cands[n].outId
        {
          LockedMembership(cands[..n], pubKeyHash, lk[i]);
          var m :| 0 <= m < n && cands[m] == lk[i];
        }
        assert forall i, j | 0 <= i < j < |l| && j < |lk| :: l[i] == lk[i] && l[j] == lk[j];
      }
    }
  }

  /** The (txId, position) pairs of the selected outputs, in selection order. */
  function PickedRefs(picked: seq<Candidate>): (r: seq<(seq<Byte>, nat)>)
    ensures |r| == |picked|
    ensures forall i | 0 <= i < |picked| :: r[i] == (picked[i].txId, picked[i].outId)
  {
    seq(|picked|, i requires 0 <= i < |picked| => (picked[i].txId, picked[i].outId))
  }

  /** The positions recorded under k are increasing when the selection is ascending. */
  lemma {:induction false} PositionsIncrease(picked: seq<Candidate>, k: seq<Byte>)
    requires Ascending(picked)
    ensures Increasing(ValuesOf(PickedRefs(picked), k))
    decreases |picked|
  {
    if picked != [] {
      var n := |picked| - 1;
      var refs := PickedRefs(picked);
      var r0: seq<(seq<Byte>, nat)> := refs[..n];
      assert r0 == PickedRefs(picked[..n]);
      assert Ascending(picked[..n]);
      PositionsIncrease(picked[..n], k);
      var vs := ValuesOf(r0, k);
      if picked[n].txId == k {
        forall i | 0 <= i < |vs|
          ensures vs[i] < picked[n].outId
        {
          var v: nat := vs[i];
          assert v in ValuesOf(r0, k);
          ValuesOfMembership<seq<Byte>, nat>(r0, k, v);
          var m :| 0 <= m < n && r0[m] == (k, v);
          assert picked[m].txId == k && picked[m].outId == v;
        }
        assert ValuesOf(refs, k) == vs + [picked[n].outId];
        IncreasingSnoc(vs, picked[n].outId);
      } else {
        assert ValuesOf(refs, k) == vs;
      }
    }
  }

  /** Strictly increasing. */
  predicate Increasing(vs: seq<nat>)
  {
    forall i, j | 0 <= i < j < |vs| :: vs[i] < vs[j]
  }

  lemma IncreasingSnoc(vs: seq<nat>, x: nat)
    requires Increasing(vs) && forall i | 0 <= i < |vs| :: vs[i] < x
    ensures Increasing(vs + [x])
  {
    var ws := vs + [x];
    forall i, j | 0 <= i < j < |ws|
      ensures ws[i] < ws[j]
    {
      assert ws[i] == vs[i];
    }
  }

  /** What `findSpendableOutputs` returns: the total, and the selected positions grouped
      by txId in selection order. */
  datatype SpendableOutputResult = SpendableOutputResult(accumulated: Int32, unspentOuts: map<seq<Byte>, seq<nat>>)

  function Spendable(cands: seq<Candidate>, pubKeyHash: seq<Byte>, amount: Int32): SpendableOutputResult
  {
    var s := Select(cands, pubKeyHash, amount);
    SpendableOutputResult(s.accumulated, Group(PickedRefs(s.picked)))
  }

  /** Every position in the result names an output of the index locked to pubKeyHash. */
  lemma SpendableLocked(order: seq<seq<Byte>>, cs: Chainstate, pubKeyHash: seq<Byte>, amount: Int32, k: seq<Byte>)
    requires Enumerates(order, cs)
    ensures var outs := Spendable(Candidates(order, cs), pubKeyHash, amount).unspentOuts;
      k in outs ==>
        && k in cs
        && (forall p | p in outs[k] :: p < |cs[k]| && IsLockedWithKey(cs[k][p], pubKeyHash))
  {
    var cands := Candidates(order, cs);
    var picked := Select(cands, pubKeyHash, amount).picked;
    var outs := Spendable(cands, pubKeyHash, amount).unspentOuts;
    GroupMeaning(PickedRefs(picked), k);
    if k in outs {
      SelectPrefix(cands, pubKeyHash, amount);
      var lk := Locked(cands, pubKeyHash);
      forall p | p in outs[k]
        ensures k in cs && p < |cs[k]| && IsLockedWithKey(cs[k][p], pubKeyHash)
      {
        var refs: seq<(seq<Byte>, nat)> := PickedRefs(picked);
        ValuesOfMembership<seq<Byte>, nat>(refs, k, p);
        assert (k, p) in refs;
        var m :| 0 <= m < |picked| && refs[m] == (k, p);
        assert picked[m] == lk[m];
        LockedMembership(cands, pubKeyHash, picked[m]);
        CandidatesMembership(order, cs, picked[m]);
      }
      assert outs[k][0] in outs[k];
    }
  }

  /** Under each txId the positions are recorded in increasing order. */
  lemma SpendableAscending(order: seq<seq<Byte>>, cs: Chainstate, pubKeyHash: seq<Byte>, amount: Int32, k: seq<Byte>)
    requires Enumerates(order, cs)
    ensures k in Spendable(Candidates(order, cs), pubKeyHash, amount).unspentOuts ==>
      Increasing(Spendable(Candidates(order, cs), pubKeyHash, amount).unspentOuts[k])
  {
    var cands := Candidates(order, cs);
    var picked := Select(cands, pubKeyHash, amount).picked;
    GroupMeaning(PickedRefs(picked), k);
    SelectPrefix(cands, pubKeyHash, amount);
    CandidatesAscending(order, cs);
    LockedAscending(cands, pubKeyHash);
    assert Ascending(picked);
    PositionsIncrease(picked, k);
  }

  /** The outputs of the candidates, in order. */
  function OutputsOf(cands: seq<Candidate>): (r: seq<TXOutput>)
    ensures |r| == |cands|
    ensures forall i | 0 <= i < |cands| :: r[i] == cands[i].output
  {
    seq(|cands|, i requires 0 <= i < |cands| => cands[i].output)
  }

  /** What `findUTXOs` returns: every stored output locked to pubKeyHash, in scan order. */
  function OwnedOutputs(order: seq<seq<Byte>>, cs: Chainstate, pubKeyHash: seq<Byte>): seq<TXOutput>
  {
    OutputsOf(Locked(Candidates(order, cs), pubKeyHash))
  }

  /** An output is listed exactly when it is locked to pubKeyHash and stored in some
      entry of the index. */
  lemma OwnedOutputsMeaning(order: seq<seq<Byte>>, cs: Chainstate, pubKeyHash: seq<Byte>, o: TXOutput)
    requires Enumerates(order, cs)
    ensures o in OwnedOutputs(order, cs, pubKeyHash) <==>
      IsLockedWithKey(o, pubKeyHash) && exists k | k in cs :: o in cs[k]
  {
    var cands := Candidates(order, cs);
    var lk := Locked(cands, pubKeyHash);
    if o in OwnedOutputs(order, cs, pubKeyHash) {
      var i :| 0 <= i < |lk| && OutputsOf(lk)[i] == o;
      LockedMembership(cands, pubKeyHash, lk[i]);
      CandidatesMembership(order, cs, lk[i]);
      assert cs[lk[i].txId][lk[i].outId] == o;
    }
    if IsLockedWithKey(o, pubKeyHash) && exists k | k in cs :: o in cs[k] {
      var k :| k in cs && o in cs[k];
      var p :| 0 <= p < |cs[k]| && cs[k][p] == o;
      var c := Candidate(k, p, o);
      CandidatesMembership(order, cs, c);
      LockedMembership(cands, pubKeyHash, c);
      var i :| 0 <= i < |lk| && lk[i] == c;
      assert OutputsOf(lk)[i] == o;
    }
  }

  /** When `findSpendableOutputs` falls short of amount it has selected every output
      `findUTXOs` lists, in the same order. */
  lemma ShortfallTakesAll(order: seq<seq<Byte>>, cs: Chainstate, pubKeyHash: seq<Byte>, amount: Int32)
    ensures var s := Select(Candidates(order, cs), pubKeyHash, amount);
      s.accumulated < amount ==> OutputsOf(s.picked) == OwnedOutputs(order, cs, pubKeyHash)
  {
    SelectEnoughOrAll(Candidates(order, cs), pubKeyHash, amount);
  }

  /** An empty bucket has no candidates, whatever the order. */
  lemma {:induction false} CandidatesOfEmpty(order: seq<seq<Byte>>)
    ensures Candidates(order, map[]) == []
    decreases |order|
  {
    if order != [] {
      CandidatesOfEmpty(order[..|order| - 1]);
    }
  }

  lemma CandidatesSnoc(order: seq<seq<Byte>>, e: nat, cs: Chainstate)
    requires e < |order|
    ensures Candidates(order[..e + 1], cs) == Candidates(order[..e], cs) + EntryCandidates(order[e], Entry(cs, order[e]))
  {
    assert order[..e + 1][..e] == order[..e];
  }

  /** One more candidate of the current entry, for `findSpendableOutputs`. */
  lemma ScanStep(before: seq<Candidate>, entry: seq<Candidate>, j: nat, pubKeyHash: seq<Byte>, amount: Int32)
    requires j < |entry|
    ensures Select(before + entry[..j + 1], pubKeyHash, amount)
      == Pick(Select(before + entry[..j], pubKeyHash, amount), entry[j], pubKeyHash, amount)
  {
    var a := before + entry[..j];
    assert before + entry[..j + 1] == a + [entry[j]];
    assert (a + [entry[j]])[..|a|] == a;
  }

  /** One iteration of `findSpendableOutputs`' inner loop, on the selection and on the
      recorded positions. */
  lemma TakeStep(before: seq<Candidate>, entry: seq<Candidate>, j: nat, pubKeyHash: seq<Byte>, amount: Int32,
                 accumulated: Int32, picked: seq<Candidate>)
    requires j < |entry|
    requires Select(before + entry[..j], pubKeyHash, amount) == Selection(accumulated, picked)
    ensures IsLockedWithKey(entry[j].output, pubKeyHash) && accumulated < amount ==>
      && Select(before + entry[..j + 1], pubKeyHash, amount)
           == Selection(Wrap32(accumulated + entry[j].output.value), picked + [entry[j]])
      && Group(PickedRefs(picked + [entry[j]])) == Append(Group(PickedRefs(picked)), entry[j].txId, entry[j].outId)
    ensures !(IsLockedWithKey(entry[j].output, pubKeyHash) && accumulated < amount) ==>
      Select(before + entry[..j + 1], pubKeyHash, amount) == Selection(accumulated, picked)
  {
    ScanStep(before, entry, j, pubKeyHash, amount);
    RefsSnoc(picked, entry[j]);
  }

  /** The `break`: once the total reaches amount the rest of the entry is skipped. */
  lemma ScanSaturated(before: seq<Candidate>, entry: seq<Candidate>, j: nat, pubKeyHash: seq<Byte>, amount: Int32)
    requires j <= |entry|
    requires Select(before + entry[..j], pubKeyHash, amount).accumulated >= amount
    ensures Select(before + entry, pubKeyHash, amount) == Select(before + entry[..j], pubKeyHash, amount)
  {
    var a := before + entry[..j];
    assert a + entry[j..] == before + entry;
    SelectFromAppend(Selection(0, []), a, entry[j..], pubKeyHash, amount);
    SelectSaturated(Select(a, pubKeyHash, amount), entry[j..], pubKeyHash, amount);
  }

  /** Recording one more selected output is one more append under its txId. */
  lemma RefsSnoc(picked: seq<Candidate>, c: Candidate)
    ensures Group(PickedRefs(picked + [c])) == Append(Group(PickedRefs(picked)), c.txId, c.outId)
  {
    assert PickedRefs(picked + [c]) == PickedRefs(picked) + [(c.txId, c.outId)];
    GroupSnoc(PickedRefs(picked), c.txId, c.outId);
  }

  /** One more candidate of the current entry, for `findUTXOs`. */
  lemma LockedStep(before: seq<Candidate>, entry: seq<Candidate>, j: nat, pubKeyHash: seq<Byte>)
    requires j < |entry|
    ensures OutputsOf(Locked(before + entry[..j + 1], pubKeyHash))
      == OutputsOf(Locked(before + entry[..j], pubKeyHash))
        + (if IsLockedWithKey(entry[j].output, pubKeyHash) then [entry[j].output] else [])
  {
    var a := before + entry[..j];
    assert before + entry[..j + 1] == a + [entry[j]];
    assert (a + [entry[j]])[..|a|] == a;
    if IsLockedWithKey(entry[j].output, pubKeyHash) {
      assert OutputsOf(Locked(a, pubKeyHash) + [entry[j]]) == OutputsOf(Locked(a, pubKeyHash)) + [entry[j].output];
    }
  }

  /** `update`'s inner loop: the stored array without position outIndex (all of it when
      the position is out of range). */
  function RemoveAt(outs: seq<TXOutput>, outIndex: Int32): (r: seq<TXOutput>)
    ensures |r| <= |outs|
  {
    if outs == [] then []
    else
      var n := |outs| - 1;
      RemoveAt(outs[..n], outIndex) + (if n != outIndex then [outs[n]] else [])
  }

  lemma {:induction false} RemoveAtMeaning(outs: seq<TXOutput>, outIndex: Int32)
    ensures 0 <= outIndex < |outs| ==> RemoveAt(outs, outIndex) == outs[..outIndex] + outs[outIndex + 1..]
    ensures !(0 <= outIndex < |outs|) ==> RemoveAt(outs, outIndex) == outs
    decreases |outs|
  {
    if outs != [] {
      var n := |outs| - 1;
      RemoveAtMeaning(outs[..n], outIndex);
      if n == outIndex {
        assert outs[..n] == outs[..outIndex] + outs[outIndex + 1..];
      } else if 0 <= outIndex < n {
        assert outs[..n][..outIndex] == outs[..outIndex];
        assert outs[..n][outIndex + 1..] + [outs[n]] == outs[outIndex + 1..];
      } else {
        assert outs[..n] + [outs[n]] == outs;
      }
    }
  }

  /** One input of `update`: an entry the index does not hold is skipped; otherwise the
      referenced position is removed, and an entry left empty is deleted. */
  function SpendInput(cs: Chainstate, input: TXInput): Chainstate
  {
    var key := input.txId;
    if key !in cs then cs
    else
      var remainder := RemoveAt(cs[key], input.txOutputIndex);
      if remainder == [] then cs - {key} else cs[key := remainder]
  }

  function SpendInputs(cs: Chainstate, inputs: seq<TXInput>): Chainstate
  {
    if inputs == [] then cs
    else
      var n := |inputs| - 1;
      SpendInput(SpendInputs(cs, inputs[..n]), inputs[n])
  }

  /** One transaction of `update`: unless it is a coinbase its inputs are spent, then
      its outputs are stored under its id. */
  function ApplyTx(cs: Chainstate, tx: Transaction): Chainstate
  {
    (if IsCoinbase(tx) then cs else SpendInputs(cs, tx.inputs))[tx.txId := tx.outputs]
  }

  function ApplyBlock(cs: Chainstate, txs: seq<Transaction>): Chainstate
  {
    if txs == [] then cs
    else
      var n := |txs| - 1;
      ApplyTx(ApplyBlock(cs, txs[..n]), txs[n])
  }

  /** Spending a position in range removes exactly that output from the entry, and an
      entry of one output disappears. */
  lemma SpendInputRemoves(cs: Chainstate, input: TXInput)
    requires input.txId in cs && 0 <= input.txOutputIndex < |cs[input.txId]|
    ensures var r := SpendInput(cs, input);
      && (|cs[input.txId]| == 1 ==> input.txId !in r)
      && (|cs[input.txId]| > 1 ==>
            input.txId in r &&
            r[input.txId] == cs[input.txId][..input.txOutputIndex] + cs[input.txId][input.txOutputIndex + 1..])
  {
    RemoveAtMeaning(cs[input.txId], input.txOutputIndex);
  }

  /** A position out of range removes nothing: the same array is stored back, unless the
      entry was empty, when it is deleted. */
  lemma SpendInputKeeps(cs: Chainstate, input: TXInput)
    requires input.txId in cs && !(0 <= input.txOutputIndex < |cs[input.txId]|)
    ensures cs[input.txId] == [] ==> SpendInput(cs, input) == cs - {input.txId}
    ensures cs[input.txId] != [] ==> SpendInput(cs, input) == cs
  {
    RemoveAtMeaning(cs[input.txId], input.txOutputIndex);
  }

  ghost predicate Untouched(txs: seq<Transaction>, k: seq<Byte>)
  {
    forall t | t in txs :: t.txId != k && (IsCoinbase(t) || forall i | i in t.inputs :: i.txId != k)
  }

  lemma {:induction false} SpendInputsFrame(cs: Chainstate, inputs: seq<TXInput>, k: seq<Byte>)
    requires forall i | i in inputs :: i.txId != k
    ensures (k in SpendInputs(cs, inputs) <==> k in cs)
    ensures k in cs ==> SpendInputs(cs, inputs)[k] == cs[k]
    decreases |inputs|
  {
    if inputs != [] {
      var n := |inputs| - 1;
      assert inputs[n] in inputs;
      SpendInputsFrame(cs, inputs[..n], k);
    }
  }

  /** An entry no transaction of the block creates or spends from is left as it was. */
  lemma {:induction false} ApplyBlockFrame(cs: Chainstate, txs: seq<Transaction>, k: seq<Byte>)
    requires Untouched(txs, k)
    ensures (k in ApplyBlock(cs, txs) <==> k in cs)
    ensures k in cs ==> ApplyBlock(cs, txs)[k] == cs[k]
    decreases |txs|
  {
    if txs != [] {
      var n := |txs| - 1;
      assert txs[n] in txs;
      assert Untouched(txs[..n], k);
      ApplyBlockFrame(cs, txs[..n], k);
      if !IsCoinbase(txs[n]) {
        SpendInputsFrame(ApplyBlock(cs, txs[..n]), txs[n].inputs, k);
      }
    }
  }

  lemma {:induction false} ApplyBlockAppend(cs: Chainstate, a: seq<Transaction>, b: seq<Transaction>)
    ensures ApplyBlock(cs, a + b) == ApplyBlock(ApplyBlock(cs, a), b)
    decreases |b|
  {
    if b == [] {
      assert a + b == a;
    } else {
      var n := |b| - 1;
      assert (a + b)[..|a| + n] == a + b[..n];
      ApplyBlockAppend(cs, a, b[..n]);
    }
  }

  /** The outputs a transaction of the block creates are in the index afterwards, under
      its id, unless a later transaction of the block spends from them or reuses the id. */
  lemma ApplyBlockStores(cs: Chainstate, txs: seq<Transaction>, i: nat)
    requires i < |txs|
    requires Untouched(txs[i + 1..], txs[i].txId)
    ensures txs[i].txId in ApplyBlock(cs, txs)
    ensures ApplyBlock(cs, txs)[txs[i].txId] == txs[i].outputs
  {
    assert txs[..i + 1] + txs[i + 1..] == txs;
    ApplyBlockAppend(cs, txs[..i + 1], txs[i + 1..]);
    assert txs[..i + 1][..i] == txs[..i];
    ApplyBlockFrame(ApplyBlock(cs, txs[..i + 1]), txs[i + 1..], txs[i].txId);
  }

  lemma SpendInputsSnoc(cs: Chainstate, inputs: seq<TXInput>, k: nat)
    requires k < |inputs|
    ensures SpendInputs(cs, inputs[..k + 1]) == SpendInput(SpendInputs(cs, inputs[..k]), inputs[k])
  {
    assert inputs[..k + 1][..k] == inputs[..k];
  }

  lemma ApplyBlockSnoc(cs: Chainstate, txs: seq<Transaction>, t: nat)
    requires t < |txs|
    ensures ApplyBlock(cs, txs[..t + 1]) == ApplyTx(ApplyBlock(cs, txs[..t]), txs[t])
  {
    assert txs[..t + 1][..t] == txs[..t];
  }

  /** The remainder loop of `update`. */
  method Remainder(txOutputs: seq<TXOutput>, outputIndex: Int32) returns (remainderUTXOs: seq<TXOutput>)
    ensures remainderUTXOs == RemoveAt(txOutputs, outputIndex)
  {
    remainderUTXOs := [];
    for outIndex := 0 to |txOutputs|
      invariant remainderUTXOs == RemoveAt(txOutputs[..outIndex], outputIndex)
    {
      assert txOutputs[..outIndex + 1][..outIndex] == txOutputs[..outIndex];
      if outIndex != outputIndex {
        remainderUTXOs := remainderUTXOs + [txOutputs[outIndex]];
      }
    }
    assert txOutputs[..|txOutputs|] == txOutputs;
  }

  /** The body of `update`'s loop over one input. */
  method SpendOutput(db: RocksDBService, txInput: TXInput)
    modifies db
    ensures db.chainstate == SpendInput(old(db.chainstate), txInput)
    ensures db.blocks == old(db.blocks) && db.tip == old(db.tip)
  {
    var txId := txInput.txId;
    var txOutputs := db.GetUTXOs(txId);
    if txOutputs.None? {
      return;
    }
    var remainderUTXOs := Remainder(txOutputs.value, txInput.txOutputIndex);
    if |remainderUTXOs| == 0 {
      db.DeleteUTXOs(txId);
    } else {
      db.PutUTXOs(txId, remainderUTXOs);
    }
  }

  /** The inner loop of `findSpendableOutputs` over one entry, with its `break` once the
      total reaches amount. */
  method ScanEntry(txId: seq<Byte>, txOutputs: seq<TXOutput>, pubKeyHash: seq<Byte>, amount: Int32,
                   accumulated0: Int32, unspentOuts0: map<seq<Byte>, seq<nat>>,
                   ghost picked0: seq<Candidate>, ghost before: seq<Candidate>)
    returns (accumulated: Int32, unspentOuts: map<seq<Byte>, seq<nat>>, ghost picked: seq<Candidate>)
    requires Select(before, pubKeyHash, amount) == Selection(accumulated0, picked0)
    requires unspentOuts0 == Group(PickedRefs(picked0))
    ensures Select(before + EntryCandidates(txId, txOutputs), pubKeyHash, amount) == Selection(accumulated, picked)
    ensures unspentOuts == Group(PickedRefs(picked))
  {
    accumulated, unspentOuts, picked := accumulated0, unspentOuts0, picked0;
    ghost var entry := EntryCandidates(txId, txOutputs);
    assert before + entry[..0] == before;
    for outId := 0 to |txOutputs|
      invariant Select(before + entry[..outId], pubKeyHash, amount) == Selection(accumulated, picked)
      invariant unspentOuts == Group(PickedRefs(picked))
    {
      TakeStep(before, entry, outId, pubKeyHash, amount, accumulated, picked);
      var txOutput := txOutputs[outId];
      assert entry[outId] == Candidate(txId, outId, txOutput);
      if IsLockedWithKey(txOutput, pubKeyHash) && accumulated < amount {
        accumulated := Wrap32(accumulated + txOutput.value);
        picked := picked + [entry[outId]];
        var outIds := if txId in unspentOuts then unspentOuts[txId] + [outId] else [outId];
        unspentOuts := unspentOuts[txId := outIds];
        if accumulated >= amount {
          ScanSaturated(before, entry, outId + 1, pubKeyHash, amount);
          break;
        }
      }
    }
    assert entry[..|entry|] == entry;
  }

  class UTXOSet {
    const blockchain: Blockchain

    /** `new UTXOSet().blockchain(blockchain)`. */
    constructor (blockchain: Blockchain)
      ensures this.blockchain == blockchain
    {
      this.blockchain := blockchain;
    }

    /** `findSpendableOutputs`: the chainstate bucket scanned in the iteration order
        `order`. */
    method FindSpendableOutputs(pubKeyHash: seq<Byte>, amount: Int32, order: seq<seq<Byte>>)
      returns (r: SpendableOutputResult)
      requires Enumerates(order, blockchain.db.chainstate)
      ensures r == Spendable(Candidates(order, blockchain.db.chainstate), pubKeyHash, amount)
    {
      var cs := blockchain.db.chainstate;
      var unspentOuts: map<seq<Byte>, seq<nat>> := map[];
      var accumulated: Int32 := 0;
      ghost var picked: seq<Candidate> := [];
      for e := 0 to |order|
        invariant Select(Candidates(order[..e], cs), pubKeyHash, amount) == Selection(accumulated, picked)
        invariant unspentOuts == Group(PickedRefs(picked))
      {
        var txId := order[e];
        var txOutputs := cs[txId];
        accumulated, unspentOuts, picked :=
          ScanEntry(txId, txOutputs, pubKeyHash, amount, accumulated, unspentOuts, picked, Candidates(order[..e], cs));
        CandidatesSnoc(order, e, cs);
      }
      assert order[..|order|] == order;
      r := SpendableOutputResult(accumulated, unspentOuts);
    }

    /** `findUTXOs`: every stored output locked to pubKeyHash, the bucket scanned in the
        iteration order `order`. */
    method FindUTXOs(pubKeyHash: seq<Byte>, order: seq<seq<Byte>>) returns (utxos: seq<TXOutput>)
      requires Enumerates(order, blockchain.db.chainstate)
      ensures utxos == OwnedOutputs(order, blockchain.db.chainstate, pubKeyHash)
      ensures blockchain.db.chainstate == map[] ==> utxos == []
    {
      var cs := blockchain.db.chainstate;
      utxos := [];
      if cs == map[] {
        CandidatesOfEmpty(order);
        return;
      }
      for e := 0 to |order|
        invariant utxos == OwnedOutputs(order[..e], cs, pubKeyHash)
      {
        var txOutputs := cs[order[e]];
        ghost var before := Candidates(order[..e], cs);
        ghost var entry := EntryCandidates(order[e], txOutputs);
        assert before + entry[..0] == before;
        for j := 0 to |txOutputs|
          invariant utxos == OutputsOf(Locked(before + entry[..j], pubKeyHash))
        {
          LockedStep(before, entry, j, pubKeyHash);
          if IsLockedWithKey(txOutputs[j], pubKeyHash) {
            utxos := utxos + [txOutputs[j]];
          }
        }
        assert entry[..|entry|] == entry;
        CandidatesSnoc(order, e, cs);
      }
      assert order[..|order|] == order;
    }

    /** `reIndex`: empty the chainstate bucket, then store what `findAllUTXOs` finds.
        When the walk meets a missing block the exception leaves the bucket empty. */
    method ReIndex() returns (err: Option<Error>)
      requires WalkEnds(blockchain.db.blocks, blockchain.lastBlockHash)
      modifies blockchain.db
      ensures blockchain.db.blocks == old(blockchain.db.blocks) && blockchain.db.tip == old(blockchain.db.tip)
      ensures old(blockchain.Walked()).1 ==>
        err == None && blockchain.db.chainstate == UTXOs(old(blockchain.Walked()).0)
      ensures !old(blockchain.Walked()).1 ==>
        err == Some(BlockNotFound) && blockchain.db.chainstate == map[]
    {
      var db := blockchain.db;
      db.CleanChainStateBucket();
      var found := blockchain.FindAllUTXOs();
      if found.Failure? {
        return Some(found.error);
      }
      var allUTXOs := found.value;
      var remaining := allUTXOs.Keys;
      while remaining != {}
        invariant remaining <= allUTXOs.Keys
        invariant db.chainstate.Keys == allUTXOs.Keys - remaining
        invariant forall k | k in db.chainstate :: db.chainstate[k] == allUTXOs[k]
        invariant db.blocks == old(db.blocks) && db.tip == old(db.tip)
        decreases remaining
      {
        var k :| k in remaining;
        db.PutUTXOs(k, allUTXOs[k]);
        remaining := remaining - {k};
      }
      assert db.chainstate == allUTXOs;
      err := None;
    }

    /** `update`: apply a newly mined block to the index; a null block throws and
        changes nothing. */
    method Update(tipBlock: Option<Block>) returns (err: Option<Error>)
      modifies blockchain.db
      ensures tipBlock.None? ==> err == Some(NullBlock) && unchanged(blockchain.db)
      ensures tipBlock.Some? ==>
        err == None && blockchain.db.chainstate == ApplyBlock(old(blockchain.db.chainstate), tipBlock.value.transactions)
      ensures blockchain.db.blocks == old(blockchain.db.blocks) && blockchain.db.tip == old(blockchain.db.tip)
    {
      if tipBlock.None? {
        return Some(NullBlock);
      }
      var db := blockchain.db;
      var txs := tipBlock.value.transactions;
      for t := 0 to |txs|
        invariant db.chainstate == ApplyBlock(old(db.chainstate), txs[..t])
        invariant db.blocks == old(db.blocks) && db.tip == old(db.tip)
      {
        var transaction := txs[t];
        if !IsCoinbase(transaction) {
          ghost var start := db.chainstate;
          for k := 0 to |transaction.inputs|
            invariant db.chainstate == SpendInputs(start, transaction.inputs[..k])
            invariant db.blocks == old(db.blocks) && db.tip == old(db.tip)
          {
            SpendInputsSnoc(start, transaction.inputs, k);
            SpendOutput(db, transaction.inputs[k]);
          }
          assert transaction.inputs[..|transaction.inputs|] == transaction.inputs;
        }
        db.PutUTXOs(transaction.txId, transaction.outputs);
        ApplyBlockSnoc(old(db.chainstate), txs, t);
      }
      assert txs[..|txs|] == txs;
      err := None;
    }
  }
}
