/** Evidence numbers: count, add the attempt, rely on the constraint. */
module EvidenceNumbers {
  import opened Basics
  import opened Decimals

  datatype Row = Row(caseId: string, number: string)

  /** `NV-2026-000042-EV-0007`. */
  function Number(caseNumber: string, k: nat): string { caseNumber + "-EV-" + Padded(k, 4) }

  function CountOf(rows: seq<Row>, caseId: string): nat {
    if rows == [] then 0 else CountOf(rows[..|rows| - 1], caseId) + if rows[|rows| - 1].caseId == caseId then 1 else 0
  }

  /** The table positions of the case's rows. */
  ghost function OfCase(rows: seq<Row>, caseId: string): set<nat> {
    set i: nat | i < |rows| && rows[i].caseId == caseId
  }

  lemma {:induction false} CountIs(rows: seq<Row>, caseId: string)
    ensures CountOf(rows, caseId) == |OfCase(rows, caseId)|
  {
    if rows == [] {
      assert OfCase(rows, caseId) == {};
    } else {
      var n := |rows| - 1;
      CountIs(rows[..n], caseId);
      assert OfCase(rows, caseId) == OfCase(rows[..n], caseId) + if rows[n].caseId == caseId then {n} else {};
    }
  }

  /** The example the format is documented with. */
  lemma NumberLooks(caseNumber: string)
    ensures Number(caseNumber, 7) == caseNumber + "-EV-0007"
  {
    assert Padded(7, 4) == "0007";
  }

  /** `UNIQUE(case_id, evidence_number)` already holds this number. */
  predicate Taken(rows: seq<Row>, caseId: string, caseNumber: string, k: nat) {
    Row(caseId, Number(caseNumber, k)) in rows
  }

  /** `_MAX_ATTEMPTS`. */
  const ATTEMPTS := 5

  /** What attempt `j` proposes. */
  ghost function Proposal(rows: seq<Row>, others: seq<seq<Row>>, caseId: string, j: nat): nat
    requires j < |others|
  {
    CountOf(Seen(rows, others, j), caseId) + 1 + j
  }

  /** By the time attempt `j` inserts, its number is taken. */
  ghost predicate Beaten(rows: seq<Row>, others: seq<seq<Row>>, caseId: string, caseNumber: string, j: nat)
    requires j < |others|
  {
    Taken(Seen(rows, others, j + 1), caseId, caseNumber, Proposal(rows, others, caseId, j))
  }

  class EvidenceNumberTable {
    var rows: seq<Row>

    constructor ()
      ensures rows == []
    {
      rows := [];
    }

    method CountRows(caseId: string) returns (n: nat)
      ensures n == CountOf(rows, caseId)
    {
      n := 0;
      for i := 0 to |rows|
        invariant n == CountOf(rows[..i], caseId)
      {
        assert rows[..i + 1][..i] == rows[..i];
        if rows[i].caseId == caseId {
          n := n + 1;
        }
      }
      assert rows[..|rows|] == rows;
    }

    /** Attempt `j`: count, let the rivals commit, insert under the unique constraint. */
    method Attempt(ghost start: seq<Row>, caseId: string, caseNumber: string, others: seq<seq<Row>>, j: nat)
      returns (k: nat, won: bool)
      requires j < |others| && rows == Seen(start, others, j)
      modifies this
      ensures k == Proposal(start, others, caseId, j)
      ensures won <==> !Beaten(start, others, caseId, caseNumber, j)
      ensures rows == Seen(start, others, j + 1) + if won then [Row(caseId, Number(caseNumber, k))] else []
    {
      SeenNext(start, others, j);
      var count := CountRows(caseId);
      k := count + 1 + j;
      rows := rows + others[j];
      won := !Taken(rows, caseId, caseNumber, k);
      if won {
        rows := rows + [Row(caseId, Number(caseNumber, k))];
      }
    }

    /** `others` is what other transactions commit between the count and the insert of each attempt. */
    method Allocate(caseId: string, caseNumber: string, others: seq<seq<Row>>) returns (r: Option<nat>, ghost last: nat)
      requires |others| == 5
      modifies this
      ensures last <= 5 && forall j :: 0 <= j < last ==> Beaten(old(rows), others, caseId, caseNumber, j)
      ensures r.None? ==> last == 5 && rows == Seen(old(rows), others, 5)
      ensures r.None? && Alone(others) ==> |Skipped(old(rows), caseId, caseNumber)| >= 5
      ensures r.Some? ==> && last < 5 && r.value == Proposal(old(rows), others, caseId, last)
                          && !Beaten(old(rows), others, caseId, caseNumber, last)
                          && rows == Seen(old(rows), others, last + 1) + [Row(caseId, Number(caseNumber, r.value))]
    {
      ghost var start := rows;
      assert rows == Seen(rows, others, 0);
      for attempt := 0 to ATTEMPTS
        invariant rows == Seen(start, others, attempt)
        invariant forall j :: 0 <= j < attempt ==> Beaten(start, others, caseId, caseNumber, j)
      {
        var k, won := Attempt(start, caseId, caseNumber, others, attempt);
        if won {
          return Some(k), attempt;
        }
      }
      if Alone(others) {
        AloneFailsOnlyAfterSkips(start, others, caseId, caseNumber);
      }
      return None, ATTEMPTS;
    }
  }

  // ------------------------------------------------------------ without rivals

  /** Nobody commits anything during the allocation. */
  ghost predicate Alone(others: seq<seq<Row>>) { forall j :: 0 <= j < |others| ==> others[j] == [] }

  lemma {:induction false} AloneSeesRows(rows: seq<Row>, others: seq<seq<Row>>, j: nat)
    requires Alone(others) && j <= |others|
    ensures Seen(rows, others, j) == rows
  {
    if j > 0 {
      AloneSeesRows(rows, others, j - 1);
      SeenNext(rows, others, j - 1);
    } else {
      assert others[..0] == [];
    }
  }

  lemma AloneProposes(rows: seq<Row>, others: seq<seq<Row>>, caseId: string, caseNumber: string, j: nat)
    requires Alone(others) && j < |others|
    ensures Proposal(rows, others, caseId, j) == CountOf(rows, caseId) + 1 + j
    ensures Beaten(rows, others, caseId, caseNumber, j) <==> Taken(rows, caseId, caseNumber, CountOf(rows, caseId) + 1 + j)
  {
    AloneSeesRows(rows, others, j);
    AloneSeesRows(rows, others, j + 1);
  }

  /**
   * Alone, the allocation that stops at attempt `last` takes the least free of the five numbers after the count;
   * it fails exactly when all five are taken.
   */
  lemma AloneTakesLeastFree(rows: seq<Row>, others: seq<seq<Row>>, caseId: string, caseNumber: string, last: nat)
    requires Alone(others) && |others| == 5 && last <= 5
    ensures (forall j :: 0 <= j < last ==> Beaten(rows, others, caseId, caseNumber, j))
       <==> (forall k :: CountOf(rows, caseId) < k <= CountOf(rows, caseId) + last ==> Taken(rows, caseId, caseNumber, k))
    ensures last < 5 ==> Proposal(rows, others, caseId, last) == CountOf(rows, caseId) + 1 + last
    ensures last < 5 ==>
              (Beaten(rows, others, caseId, caseNumber, last) <==> Taken(rows, caseId, caseNumber, CountOf(rows, caseId) + 1 + last))
  {
    var c := CountOf(rows, caseId);
    forall j: nat | j < 5 ensures Beaten(rows, others, caseId, caseNumber, j) <==> Taken(rows, caseId, caseNumber, c + 1 + j) {
      AloneProposes(rows, others, caseId, caseNumber, j);
    }
    if last < 5 {
      AloneProposes(rows, others, caseId, caseNumber, last);
    }
    if forall j :: 0 <= j < last ==> Beaten(rows, others, caseId, caseNumber, j) {
      forall k | c < k <= c + last ensures Taken(rows, caseId, caseNumber, k) {
        assert Beaten(rows, others, caseId, caseNumber, k - c - 1);
      }
    }
  }

  // ------------------------------------------------------------ when it fails

  ghost function TakenUpTo(rows: seq<Row>, caseId: string, caseNumber: string, m: nat): set<nat> {
    set k: nat | 1 <= k <= m && Taken(rows, caseId, caseNumber, k)
  }

  /** The numbers up to the count that no row of the case carries. */
  ghost function Skipped(rows: seq<Row>, caseId: string, caseNumber: string): set<nat> {
    set k: nat | 1 <= k <= CountOf(rows, caseId) && !Taken(rows, caseId, caseNumber, k)
  }

  lemma NumberInjective(caseNumber: string, j: nat, k: nat)
    requires Number(caseNumber, j) == Number(caseNumber, k)
    ensures j == k
  {
    var n := |caseNumber| + 4;
    assert Number(caseNumber, j)[n..] == Padded(j, 4) && Number(caseNumber, k)[n..] == Padded(k, 4);
    PaddedInjective(j, k, 4);
  }

  /** A row takes one number at most. */
  lemma {:induction false} TakenAtMostCount(rows: seq<Row>, caseId: string, caseNumber: string, m: nat)
    ensures |TakenUpTo(rows, caseId, caseNumber, m)| <= CountOf(rows, caseId)
  {
    var taken := TakenUpTo(rows, caseId, caseNumber, m);
    if rows == [] {
      assert taken == {};
    } else {
      var front, row := rows[..|rows| - 1], rows[|rows| - 1];
      assert rows == front + [row];
      TakenAtMostCount(front, caseId, caseNumber, m);
      var before := TakenUpTo(front, caseId, caseNumber, m);
      if added: nat :| added in taken && added !in before {
        assert row == Row(caseId, Number(caseNumber, added));
        forall k | k in taken ensures k in before + {added} {
          if k !in before {
            NumberInjective(caseNumber, k, added);
          }
        }
        Contained(taken, before + {added});
      } else {
        Contained(taken, before);
      }
    }
  }

  /** The numbers above `lo` up to `hi`. */
  ghost function Range(lo: nat, hi: nat): (s: set<nat>)
    requires lo <= hi
    ensures |s| == hi - lo && forall k :: k in s <==> lo < k <= hi
  {
    if lo == hi then {} else Range(lo, hi - 1) + {hi}
  }

  /** Five taken numbers above the count leave at least five free ones at or below it. */
  lemma FailureMeansFiveSkipped(rows: seq<Row>, caseId: string, caseNumber: string)
    requires forall k :: CountOf(rows, caseId) < k <= CountOf(rows, caseId) + ATTEMPTS ==> Taken(rows, caseId, caseNumber, k)
    ensures |Skipped(rows, caseId, caseNumber)| >= ATTEMPTS
  {
    var c := CountOf(rows, caseId);
    var above := Range(c, c + ATTEMPTS);
    var below := TakenUpTo(rows, caseId, caseNumber, c);
    var skipped := Skipped(rows, caseId, caseNumber);
    TakenAtMostCount(rows, caseId, caseNumber, c + ATTEMPTS);
    assert TakenUpTo(rows, caseId, caseNumber, c + ATTEMPTS) == below + above;
    assert Range(0, c) == below + skipped;
  }

  /** Alone, an allocation that fails has found at least five numbers up to the count unused. */
  lemma AloneFailsOnlyAfterSkips(rows: seq<Row>, others: seq<seq<Row>>, caseId: string, caseNumber: string)
    requires Alone(others) && |others| == 5
    requires forall j :: 0 <= j < 5 ==> Beaten(rows, others, caseId, caseNumber, j)
    ensures |Skipped(rows, caseId, caseNumber)| >= 5
  {
    AloneTakesLeastFree(rows, others, caseId, caseNumber, ATTEMPTS);
    FailureMeansFiveSkipped(rows, caseId, caseNumber);
  }

  // ---------------------------------------------------------- how gaps arise

  /** The numbers of the case are those from 1 to its count. */
  ghost predicate Gapless(rows: seq<Row>, caseId: string, caseNumber: string) {
    forall k: nat :: Taken(rows, caseId, caseNumber, k) <==> 1 <= k <= CountOf(rows, caseId)
  }

  /** Alone on a gapless case, the first attempt succeeds and leaves it gapless. */
  lemma AloneStaysGapless(rows: seq<Row>, caseId: string, caseNumber: string)
    requires Gapless(rows, caseId, caseNumber)
    ensures var k := CountOf(rows, caseId) + 1;
            !Taken(rows, caseId, caseNumber, k)
            && Gapless(rows + [Row(caseId, Number(caseNumber, k))], caseId, caseNumber)
  {
    AppendGapless(rows, caseId, caseNumber);
  }

  lemma AppendGapless(rows: seq<Row>, caseId: string, caseNumber: string)
    requires Gapless(rows, caseId, caseNumber)
    ensures var rows' := rows + [Row(caseId, Number(caseNumber, CountOf(rows, caseId) + 1))];
            CountOf(rows', caseId) == CountOf(rows, caseId) + 1 && Gapless(rows', caseId, caseNumber)
  {
    var c := CountOf(rows, caseId);
    var rows' := rows + [Row(caseId, Number(caseNumber, c + 1))];
    assert rows'[..|rows|] == rows;
    forall k: nat ensures Taken(rows', caseId, caseNumber, k) <==> 1 <= k <= c + 1 {
      var row := Row(caseId, Number(caseNumber, k));
      assert row in rows' <==> row in rows || row == rows'[|rows|];
      assert Taken(rows, caseId, caseNumber, k) <==> 1 <= k <= c;
      if Number(caseNumber, k) == Number(caseNumber, c + 1) {
        NumberInjective(caseNumber, k, c + 1);
      }
    }
  }

  lemma {:induction false} CountConcat(a: seq<Row>, b: seq<Row>, caseId: string)
    ensures CountOf(a + b, caseId) == CountOf(a, caseId) + CountOf(b, caseId)
  {
    if b == [] {
      assert a + b == a;
    } else {
      CountConcat(a, b[..|b| - 1], caseId);
      assert (a + b)[..|a + b| - 1] == a + b[..|b| - 1];
    }
  }

  /** A free number above the next one leaves a gap; the next one itself does not. */
  lemma AppendGaplessIff(rows: seq<Row>, caseId: string, caseNumber: string, k: nat)
    requires Gapless(rows, caseId, caseNumber) && k > 0 && !Taken(rows, caseId, caseNumber, k)
    ensures Gapless(rows + [Row(caseId, Number(caseNumber, k))], caseId, caseNumber) <==> k == CountOf(rows, caseId) + 1
  {
    var c := CountOf(rows, caseId);
    AppendGapless(rows, caseId, caseNumber);
    if k != c + 1 {
      var rows' := rows + [Row(caseId, Number(caseNumber, k))];
      assert rows'[..|rows|] == rows;
      assert CountOf(rows', caseId) == c + 1;
      if Taken(rows', caseId, caseNumber, c + 1) {
        assert !Taken(rows, caseId, caseNumber, c + 1);
        NumberInjective(caseNumber, c + 1, k);
      }
    }
  }

  /**
   * An allocation that wins at attempt `last`, on numbers its rivals leave gapless, keeps them gapless exactly
   * when as many rival items came in during that attempt as attempts had been lost before it.
   */
  lemma WinnerKeepsGaplessIff(rows: seq<Row>, others: seq<seq<Row>>, caseId: string, caseNumber: string, last: nat)
    requires last < |others| && Gapless(Seen(rows, others, last + 1), caseId, caseNumber)
    requires !Beaten(rows, others, caseId, caseNumber, last)
    ensures var row := Row(caseId, Number(caseNumber, Proposal(rows, others, caseId, last)));
            (Gapless(Seen(rows, others, last + 1) + [row], caseId, caseNumber) <==> CountOf(others[last], caseId) == last)
  {
    SeenNext(rows, others, last);
    CountConcat(Seen(rows, others, last), others[last], caseId);
    AppendGaplessIff(Seen(rows, others, last + 1), caseId, caseNumber, Proposal(rows, others, caseId, last));
  }

  /** A single lost race does skip a number: the retry counts the winner and adds the attempt as well. */
  lemma LostRaceSkips(rows: seq<Row>, others: seq<seq<Row>>, caseId: string, caseNumber: string)
    requires Gapless(rows, caseId, caseNumber) && |others| == 5
    requires others[0] == [Row(caseId, Number(caseNumber, CountOf(rows, caseId) + 1))] && others[1] == []
    ensures var c := CountOf(rows, caseId);
            && Beaten(rows, others, caseId, caseNumber, 0) && !Beaten(rows, others, caseId, caseNumber, 1)
            && Proposal(rows, others, caseId, 1) == c + 3
            && !Taken(Seen(rows, others, 2), caseId, caseNumber, c + 2)
  {
    AppendGapless(rows, caseId, caseNumber);
    SeenNext(rows, others, 0);
    SeenNext(rows, others, 1);
    assert Seen(rows, others, 0) == rows;
    assert Seen(rows, others, 1) == rows + others[0];
    assert Seen(rows, others, 2) == rows + others[0];
  }
}
