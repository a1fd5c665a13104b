/** What holds over every run, read off the snapshots. */
module RunLaws {
  import opened Words
  import opened JournalState
  import opened JournalLaws
  import opened Supply
  import TransferLaws
  import TransferPrecompile
  import opened Runs
  import opened Snapshots
  import opened Refinement
  import opened L1Block
  import L1FeeLaws

  // Nested frames.

  /** How many frames `ops` leaves open, if it never closes one it did not open and does not end
      the transaction. */
  function OpenFrames(ops: seq<Op>): Option<nat> {
    if ops == [] then Some(0)
    else
      var before :- OpenFrames(ops[..|ops| - 1]);
      match ops[|ops| - 1]
      case OpenFrame => Some(before + 1)
      case CommitFrame => if before == 0 then None else Some(before - 1)
      case RevertFrame => if before == 0 then None else Some(before - 1)
      case EndTransaction => None
      case _ => Some(before)
  }

  lemma {:induction false} SimpleRunAppend(m: Simple, ops: seq<Op>, op: Op)
    ensures SimpleRun(m, ops + [op]).0 == SimplePerform(SimpleRun(m, ops).0, op).0
    decreases |ops|
  {
    if ops == [] {
      assert (ops + [op])[1..] == [];
    } else {
      SimpleRunAppend(SimplePerform(m, ops[0]).0, ops[1..], op);
      assert (ops + [op])[1..] == ops[1..] + [op];
    }
  }

  lemma PerformSaved(m: Simple, op: Op)
    ensures var m' := SimplePerform(m, op).0;
      && m'.db == m.db
      && m'.saved == match op
                     case OpenFrame => m.saved + [m.now]
                     case CommitFrame => if m.saved == [] then [] else m.saved[..|m.saved| - 1]
                     case RevertFrame => if m.saved == [] then [] else m.saved[..|m.saved| - 1]
                     case EndTransaction => []
                     case _ => m.saved
  {
  }

  /** A well-bracketed run leaves the frames below it alone. */
  lemma {:induction false} BracketedKeepsFrames(m: Simple, ops: seq<Op>)
    requires OpenFrames(ops).Some?
    ensures var m' := SimpleRun(m, ops).0;
      |m'.saved| == |m.saved| + OpenFrames(ops).value && m'.saved[..|m.saved|] == m.saved
      && m'.db == m.db
    decreases |ops|
  {
    if ops == [] {
    } else {
      var last := |ops| - 1;
      BracketedKeepsFrames(m, ops[..last]);
      SimpleRunAppend(m, ops[..last], ops[last]);
      PerformSaved(SimpleRun(m, ops[..last]).0, ops[last]);
      hide SimplePerform, SimpleRun;
      assert ops == ops[..last] + [ops[last]];
    }
  }

  lemma {:induction false} ListsGrowAppend(ops: seq<Op>, op: Op, list: AccessList)
    requires ListsGrow(ops, list) && !op.WarmList?
    ensures ListsGrow(ops + [op], list)
    decreases |ops|
  {
    if ops == [] {
      assert (ops + [op])[1..] == [];
    } else {
      var next := match ops[0] case WarmList(next) => next case EndTransaction => map[] case _ => list;
      ListsGrowAppend(ops[1..], op, next);
      assert (ops + [op])[1..] == ops[1..] + [op];
    }
  }

  /** Whatever a frame does, in however many nested frames, committed or reverted: reverting it
      restores every value, balance and warm flag that its opening saw. Access lists stay. */
  lemma RevertRestoresFrame(c: Machine, m: Simple, ops: seq<Op>)
    requires Refines(c, m) && OpenFrames(ops) == Some(0) && ListsGrow(ops, m.list)
    ensures var m' := SimpleRun(m, [OpenFrame] + ops + [RevertFrame]).0;
      && m'.now == m.now && m'.saved == m.saved
      && Refines(Run(c, [OpenFrame] + ops + [RevertFrame]).0, m')
  {
    var inside := SimplePerform(m, OpenFrame).0;
    var m2 := SimpleRun(inside, ops).0;
    hide Refines, Run, ListsGrow;
    BracketedKeepsFrames(inside, ops);
    SimpleRunAppend(m, [OpenFrame] + ops, RevertFrame);
    assert ([OpenFrame] + ops)[1..] == ops;
    assert SimpleRun(m, [OpenFrame] + ops).0 == m2;
    hide SimpleRun, OpenFrames;
    assert m2.saved == m.saved + [m.now];
    ListsGrowAppend([OpenFrame] + ops, RevertFrame, m.list);
    RunRefines(c, m, [OpenFrame] + ops + [RevertFrame]);
  }

  // Supply.

  function SimpleBalances(m: Simple): Balances {
    (a: Address) => m.Balance(a)
  }

  function SimpleSupply(m: Simple): nat {
    Total(SimpleBalances(m), ADDRESS_COUNT)
  }

  /** The present and every saved snapshot hold the same amount of money. */
  ghost predicate Holds(m: Simple, supply: nat) {
    && SimpleSupply(m) == supply
    && forall i :: 0 <= i < |m.saved| ==> SimpleSupply(m.(now := m.saved[i])) == supply
  }

  lemma SameSimpleSupply(m: Simple, m': Simple)
    requires forall a: Address :: m'.Balance(a) == m.Balance(a)
    ensures SimpleSupply(m') == SimpleSupply(m)
  {
    TotalAgrees(SimpleBalances(m), SimpleBalances(m'), ADDRESS_COUNT);
  }

  lemma SimpleSupplyMoved(m: Simple, m': Simple, from: Address, to: Address, value: nat)
    requires forall a: Address ::
      m'.Balance(a) == m.Balance(a) + (if a == to then value else 0) - (if a == from then value else 0)
    ensures SimpleSupply(m') == SimpleSupply(m)
  {
    TotalMoved(SimpleBalances(m), SimpleBalances(m'), from, to, value, ADDRESS_COUNT);
  }

  lemma SimpleTransferKeepsSupply(m: Simple, call: TransferPrecompile.Call)
    ensures SimpleSupply(SimpleTransfer(m, call).0) == SimpleSupply(m)
  {
    hide SimpleSupply, TransferPrecompile.Decode;
    if TransferLaws.Refusal(call).None? {
      var order := TransferPrecompile.Decode(call.data);
      var (m', output) := SimpleTransfer(m, call);
      var done := output == Returned(Ok(TransferPrecompile.Output(9000, false)));
      SimpleTransferEffect(m, call);
      hide SimpleTransfer;
      SimpleSupplyMoved(m, m', order.from, order.to, if done then order.value else 0);
    }
  }

  lemma PerformFrames(m: Simple, op: Op)
    ensures var m' := SimplePerform(m, op).0;
      && m'.db == m.db
      && (forall i :: 0 <= i < |m'.saved| ==>
            if i < |m.saved| then m'.saved[i] == m.saved[i] else m'.saved[i] == m.now)
      && (!op.CallTransfer? ==>
            || m'.now.infos == m.now.infos
            || (m.saved != [] && m'.now == m.saved[|m.saved| - 1]))
  {
    hide TransferPrecompile.Decode, TransferLaws.Refusal;
  }

  lemma SimplePerformKeepsSupply(m: Simple, op: Op, supply: nat)
    requires Holds(m, supply)
    ensures Holds(SimplePerform(m, op).0, supply)
  {
    var m' := SimplePerform(m, op).0;
    PerformFrames(m, op);
    hide SimplePerform, SimpleSupply;
    if !op.CallTransfer? {
      if m'.now.infos == m.now.infos {
        SameSimpleSupply(m, m');
      } else {
        SameSimpleSupply(m.(now := m.saved[|m.saved| - 1]), m');
      }
    } else {
      assert SimpleSupply(m') == SimpleSupply(m) by {
        SimplePerformTransfer(m, op.call);
      }
    }
    forall i | 0 <= i < |m'.saved| ensures SimpleSupply(m'.(now := m'.saved[i])) == supply {
      if i < |m.saved| {
        SameSimpleSupply(m.(now := m.saved[i]), m'.(now := m'.saved[i]));
      } else {
        SameSimpleSupply(m, m'.(now := m'.saved[i]));
      }
    }
  }

  lemma SimplePerformTransfer(m: Simple, call: TransferPrecompile.Call)
    ensures SimpleSupply(SimplePerform(m, CallTransfer(call)).0) == SimpleSupply(m)
  {
    SimpleTransferKeepsSupply(m, call);
  }

  lemma {:induction false} SimpleRunKeepsSupply(m: Simple, ops: seq<Op>, supply: nat)
    requires Holds(m, supply)
    ensures Holds(SimpleRun(m, ops).0, supply)
    decreases |ops|
  {
    if ops == [] {
    } else {
      SimplePerformKeepsSupply(m, ops[0], supply);
      SimpleRunKeepsSupply(SimplePerform(m, ops[0]).0, ops[1..], supply);
    }
  }

  /** What a run from any journal between call frames leaves, and the snapshot that shows it. */
  lemma RunFromRefines(s: Journal, ops: seq<Op>)
    requires WellFormed(s) && s.db.Healthy() && s.depth == 0 && ListsGrow(ops, s.accessList)
    ensures var (t, outputs) := RunFrom(s, ops);
      var (m, expected) := SimpleRun(SimpleOf(s), ops);
      && outputs == expected && WellFormed(t) && t.db == s.db && Shows(t, m)
  {
    EveryJournalRefines(s);
    RunRefines(Machine(s, []), SimpleOf(s), ops);
    SimpleRunKeepsDb(SimpleOf(s), ops);
  }

  lemma {:induction false} SimpleRunKeepsDb(m: Simple, ops: seq<Op>)
    ensures SimpleRun(m, ops).0.db == m.db
    decreases |ops|
  {
    if ops == [] {
    } else {
      SimpleRunKeepsDb(SimplePerform(m, ops[0]).0, ops[1..]);
    }
  }

  lemma ShownSupply(s: Journal, m: Simple)
    requires Shows(s, m)
    ensures SimpleSupply(m) == SupplyOf(s)
  {
    TotalAgrees(SimpleBalances(m), BalancesOf(s), ADDRESS_COUNT);
  }

  lemma StartsHeld(m: Simple)
    requires m.saved == []
    ensures Holds(m, SimpleSupply(m))
  {
  }

  /** However precompile calls interleave with checkpoints, reverts and transactions, and from
      whatever journal they start, the total of all balances never changes. */
  lemma TransfersConserveSupply(s: Journal, ops: seq<Op>)
    requires WellFormed(s) && s.db.Healthy() && s.depth == 0 && ListsGrow(ops, s.accessList)
    ensures SupplyOf(RunFrom(s, ops).0) == SupplyOf(s)
  {
    var m := SimpleOf(s);
    RunFromRefines(s, ops);
    EveryJournalRefines(s);
    StartsHeld(m);
    hide RunFrom, SimpleRun, SimpleOf, Shows, ListsGrow, SupplyOf, SimpleSupply;
    SimpleRunKeepsSupply(m, ops, SimpleSupply(m));
    ShownSupply(RunFrom(s, ops).0, SimpleRun(m, ops).0);
    ShownSupply(s, m);
  }

  // Untouched accounts.

  /** Whatever differs from the database belongs to an account that has been written. */
  ghost predicate WritesRecorded(p: Snapshot, db: Database) {
    && (forall a: Address :: a in p.infos && a !in p.written ==> p.infos[a] == db.InfoAt(a))
    && (forall a: Address, k: U256 :: (a, k) in p.values && a !in p.written ==> p.values[(a, k)] == db.SlotAt(a, k))
  }

  ghost predicate AllWritesRecorded(m: Simple) {
    && WritesRecorded(m.now, m.db)
    && forall i :: 0 <= i < |m.saved| ==> WritesRecorded(m.saved[i], m.db)
  }

  lemma SimplePerformRecordsWrites(m: Simple, op: Op)
    requires AllWritesRecorded(m)
    ensures AllWritesRecorded(SimplePerform(m, op).0)
  {
    PerformFrames(m, op);
    PerformWrites(m, op);
    hide SimplePerform;
  }

  lemma TransferWrites(m: Simple, call: TransferPrecompile.Call)
    ensures var now, next := m.now, SimpleTransfer(m, call).0.now;
      && now.written <= next.written && next.values == now.values
      && forall a: Address :: a in next.infos && a !in next.written ==>
           a in now.infos && next.infos[a] == now.infos[a]
  {
    hide TransferPrecompile.Decode, TransferLaws.Refusal;
  }

  /** An operation rewrites the infos of accounts it records, one slot at most, or goes back to a saved
      snapshot. */
  lemma PerformWrites(m: Simple, op: Op)
    ensures var now, next := m.now, SimplePerform(m, op).0.now;
      || (m.saved != [] && next == m.saved[|m.saved| - 1])
      || (&& now.written <= next.written
          && (forall a: Address :: a in next.infos && a !in next.written ==>
                a in now.infos && next.infos[a] == now.infos[a])
          && (next.values == now.values
              || (op.Sstore? && next.values == now.values[(op.address, op.key) := op.value]
                  && op.address in next.written)))
  {
    if op.CallTransfer? {
      TransferWrites(m, op.call);
    }
    hide SimpleTransfer;
  }

  lemma {:induction false} SimpleRunRecordsWrites(m: Simple, ops: seq<Op>)
    requires AllWritesRecorded(m)
    ensures AllWritesRecorded(SimpleRun(m, ops).0)
    decreases |ops|
  {
    if ops == [] {
    } else {
      SimplePerformRecordsWrites(m, ops[0]);
      SimpleRunRecordsWrites(SimplePerform(m, ops[0]).0, ops[1..]);
    }
  }

  lemma SnapshotRecordsWrites(s: Journal)
    requires UntouchedMatchesDb(s)
    ensures AllWritesRecorded(SimpleOf(s))
  {
  }

  /** Every run keeps the invariant that whatever differs from the database has been touched, through
      all its reverts: reads cache untouched accounts, but only stores and transfers change any. */
  lemma RunKeepsUntouched(s: Journal, ops: seq<Op>)
    requires WellFormed(s) && s.db.Healthy() && s.depth == 0 && ListsGrow(ops, s.accessList)
    requires UntouchedMatchesDb(s)
    ensures UntouchedMatchesDb(RunFrom(s, ops).0)
  {
    var t, m := RunFrom(s, ops).0, SimpleRun(SimpleOf(s), ops).0;
    RunFromRefines(s, ops);
    SnapshotRecordsWrites(s);
    SimpleRunRecordsWrites(SimpleOf(s), ops);
    hide RunFrom, SimpleRun, ListsGrow;
    forall a: Address ensures t.IsTouched(a) || t.InfoOf(a) == t.db.InfoAt(a) {
      assert t.InfoOf(a) == m.InfoOf(a);
    }
    forall a: Address, k: U256 ensures t.IsTouched(a) || t.Value(a, k) == t.db.SlotAt(a, k) {
      assert t.Value(a, k) == m.Value(a, k);
    }
  }
}
