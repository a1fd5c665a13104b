/** The journal machine refines the snapshot machine: every run gives the same outputs. */
module Refinement {
  import opened Words
  import opened Specs
  import opened JournalState
  import opened JournalLaws
  import opened JournalEffects
  import TransferEffects
  import TransferLaws
  import TransferPrecompile
  import Blockhash
  import BlockhashLaws
  import opened Runs
  import opened Snapshots

  /** `m` shows at every address what `s` shows. */
  ghost predicate Shows(s: Journal, m: Simple) {
    && s.db == m.db && s.accessList == m.list
    && (forall a: Address :: s.InfoOf(a) == m.InfoOf(a))
    && (forall a: Address :: s.IsAccountWarm(a) == m.AccountWarm(a))
    && (forall a: Address, k: U256 :: s.Value(a, k) == m.Value(a, k))
    && (forall a: Address, k: U256 :: s.IsSlotWarm(a, k) == m.SlotWarm(a, k))
    && (forall a: Address :: a in m.now.written ==> s.IsTouched(a))
  }

  ghost predicate Ascending(marks: seq<nat>, limit: nat) {
    && (forall i :: 0 <= i < |marks| ==> marks[i] <= limit)
    && (forall i, j :: 0 <= i < j < |marks| ==> marks[i] <= marks[j])
  }

  /** The journal undone to its `i`th mark shows the `i`th saved snapshot. */
  ghost predicate FrameShows(c: Machine, m: Simple, i: nat)
    requires i < |c.marks| && i < |m.saved|
  {
    Shows(UndoTo(c.journal, c.marks[i]), m.(now := m.saved[i]))
  }

  ghost predicate Refines(c: Machine, m: Simple) {
    && WellFormed(c.journal) && c.journal.db.Healthy()
    && |c.marks| == |m.saved| && c.journal.depth == |c.marks|
    && Ascending(c.marks, |c.journal.log|)
    && Shows(c.journal, m)
    && forall i :: 0 <= i < |c.marks| ==> FrameShows(c, m, i)
  }

  lemma ShowsThroughView(t: Journal, s: Journal, m: Simple)
    requires SameView(t, s) && Shows(s, m)
    ensures Shows(t, m)
  {
    forall a: Address
      ensures t.InfoOf(a) == m.InfoOf(a) && t.IsAccountWarm(a) == m.AccountWarm(a)
      ensures t.IsTouched(a) == s.IsTouched(a)
    {
      assert SameAt(t, s, a);
    }
    forall a: Address, k: U256
      ensures t.Value(a, k) == m.Value(a, k) && t.IsSlotWarm(a, k) == m.SlotWarm(a, k)
    {
      assert SameAt(t, s, a) && SameSlotAt(t, s, a, k);
    }
  }

  /** An operation whose effects the log can undo only has to show the right present. */
  lemma RefinesByExtension(c: Machine, t: Journal, m: Simple, now: Snapshot)
    requires Refines(c, m) && Extends(t, c.journal) && Shows(t, m.(now := now))
    ensures Refines(c.(journal := t), m.(now := now))
  {
    var c', m' := c.(journal := t), m.(now := now);
    assert t.db == c.journal.db && t.accessList == c.journal.accessList;
    forall i | 0 <= i < |c.marks| ensures FrameShows(c', m', i) {
      assert FrameShows(c, m, i);
      ExtendsUndo(c.journal, t, c.marks[i]);
      ShowsThroughView(UndoTo(t, c.marks[i]), UndoTo(c.journal, c.marks[i]), m.(now := m.saved[i]));
      assert m'.(now := m'.saved[i]) == m.(now := m.saved[i]);
    }
  }

  lemma UnchangedRefines(c: Machine, t: Journal, m: Simple)
    requires Refines(c, m) && Extends(t, c.journal) && SameView(t, c.journal)
    ensures Refines(c.(journal := t), m)
  {
    ShowsThroughView(t, c.journal, m);
    RefinesByExtension(c, t, m, m.now);
    assert m.(now := m.now) == m;
  }

  lemma ShowsAccountLoaded(t: Journal, s: Journal, m: Simple, a: Address)
    requires AccountLoaded(t, s, a) && Shows(s, m)
    ensures Shows(t, m.WarmAccount(a))
  {
    assert AccountsLoaded(t, s, {a});
    ShowsAccountsLoaded(t, s, m, {a});
  }

  lemma ShowsAccountsLoaded(t: Journal, s: Journal, m: Simple, loaded: set<Address>)
    requires AccountsLoaded(t, s, loaded) && Shows(s, m)
    ensures Shows(t, m.WarmEach(loaded))
  {
    var m' := m.WarmEach(loaded);
    forall b: Address, k: U256
      ensures t.Value(b, k) == m'.Value(b, k) && t.IsSlotWarm(b, k) == m'.SlotWarm(b, k)
    {
      assert SameSlotAt(t, s, b, k);
      assert m'.Value(b, k) == m.Value(b, k) && m'.SlotWarm(b, k) == m.SlotWarm(b, k);
    }
    forall b: Address
      ensures t.InfoOf(b) == m'.InfoOf(b) && t.IsAccountWarm(b) == m'.AccountWarm(b)
    {
      assert t.InfoOf(b) == s.InfoOf(b);
      assert m'.InfoOf(b) == m.InfoOf(b) && m'.AccountWarm(b) == (b in loaded || m.AccountWarm(b));
    }
  }

  lemma ShowsSlotLoaded(t: Journal, s: Journal, m: Simple, a: Address, k: U256)
    requires SlotLoaded(t, s, a, k) && Shows(s, m)
    ensures Shows(t, m.WarmSlot(a, k))
  {
    var m' := m.WarmSlot(a, k);
    forall b: Address, j: U256
      ensures t.Value(b, j) == m'.Value(b, j) && t.IsSlotWarm(b, j) == m'.SlotWarm(b, j)
    {
      assert m'.Value(b, j) == m.Value(b, j);
      assert m'.SlotWarm(b, j) == ((b == a && j == k) || m.SlotWarm(b, j));
    }
    forall b: Address
      ensures t.InfoOf(b) == m'.InfoOf(b) && t.IsAccountWarm(b) == m'.AccountWarm(b)
    {
      assert t.InfoOf(b) == s.InfoOf(b);
      assert m'.InfoOf(b) == m.InfoOf(b) && m'.AccountWarm(b) == m.AccountWarm(b);
    }
  }

  ghost predicate StepAgrees(c: Machine, m: Simple, op: Op) {
    var (c', output) := Perform(c, op);
    var (m', expected) := SimplePerform(m, op);
    output == expected && Refines(c', m')
  }

  lemma NoTraceShows(s: Journal, t: Journal)
    requires BlockhashLaws.NoTrace(t, s)
    ensures SameView(t, s)
  {
  }

  lemma StepBlockhash(c: Machine, m: Simple, env: Blockhash.Env, number: U256, gas: U64)
    requires Refines(c, m)
    ensures StepAgrees(c, m, Op.Blockhash(env, number, gas))
  {
    hide WellFormed, Extends, Blockhash.Execute, BlockhashLaws.NoTrace, SameView, SlotLoaded, AccountsLoaded;
    var s := c.journal;
    var f := Blockhash.Frame([number], gas, None);
    var (t, g) := Blockhash.Execute(env, s, f);
    var k := Blockhash.RingIndex(number);
    BlockhashLaws.BlockhashMeetsReference(env, s, f);
    assert BlockhashLaws.Meets((t, g), env, s, f);
    assert s.Value(Blockhash.HISTORY, k) == m.Value(Blockhash.HISTORY, k);
    assert s.IsSlotWarm(Blockhash.HISTORY, k) == m.SlotWarm(Blockhash.HISTORY, k);
    if gas < BlockhashLaws.Cost(env, s, number) {
      NoTraceShows(s, t);
      UnchangedRefines(c, t, m);
    } else if !BlockhashLaws.InWindow(number, env.blockNumber) || !env.spec.IsEnabledIn(FEYNMAN) {
      assert c.(journal := t) == c;
    } else if env.spec.IsEnabledIn(TSUKI_V2) {
      ShowsSlotLoaded(t, s, m, Blockhash.HISTORY, k);
      RefinesByExtension(c, t, m, m.WarmSlot(Blockhash.HISTORY, k).now);
    } else {
      assert BlockhashLaws.Performed(env, t, s, number);
      var loaded := CodeAccounts(Blockhash.HISTORY, s.InfoOf(Blockhash.HISTORY));
      var u :| AccountsLoaded(u, s, loaded) && SlotLoaded(t, u, Blockhash.HISTORY, k);
      ShowsAccountsLoaded(u, s, m, loaded);
      ShowsSlotLoaded(t, u, m.WarmEach(loaded), Blockhash.HISTORY, k);
      RefinesByExtension(c, t, m, m.WarmSlot(Blockhash.HISTORY, k).WarmEach(loaded).now);
    }
  }

  lemma ExecuteSloadEffect(s: Journal, a: Address, k: U256, gas: U64)
    requires WellFormed(s) && s.db.Healthy() && a in s.accounts
    ensures var (t, g) := ExecuteSload(s, a, Blockhash.Frame([k], gas, None));
      var cost := if s.IsSlotWarm(a, k) then 100 else 2100;
      && Extends(t, s)
      && Executed(g) == Metered(k, gas, cost, s.Value(a, k))
      && (if gas < cost then t == s else SlotLoaded(t, s, a, k))
  {
    hide WellFormed, Extends;
    ExtendsReflexive(s);
    if 100 <= gas {
      SloadEffect(s, a, k, gas - 100 < 2000);
    }
    hide SloadSkipColdLoad, SlotLoaded, Extends;
  }

  lemma StepSload(c: Machine, m: Simple, a: Address, k: U256, gas: U64)
    requires Refines(c, m)
    ensures StepAgrees(c, m, Sload(a, k, gas))
  {
    hide WellFormed, Extends;
    var s := c.journal;
    var loaded := LoadAccount(s, a).journal;
    var m' := m.WarmAccount(a);
    LoadAccountEffect(s, a);
    ShowsAccountLoaded(loaded, s, m, a);
    var (t, g) := ExecuteSload(loaded, a, Blockhash.Frame([k], gas, None));
    ExecuteSloadEffect(loaded, a, k, gas);
    assert loaded.Value(a, k) == m'.Value(a, k) == m.Value(a, k);
    assert loaded.IsSlotWarm(a, k) == m'.SlotWarm(a, k) == m.SlotWarm(a, k);
    hide LoadAccount, ExecuteSload, AccountLoaded;
    ExtendsTransitive(s, loaded, t);
    hide Extends;
    if gas < if m.SlotWarm(a, k) then 100 else 2100 {
      RefinesByExtension(c, loaded, m, m'.now);
    } else {
      ShowsSlotLoaded(t, loaded, m', a, k);
      RefinesByExtension(c, t, m, m'.WarmSlot(a, k).now);
    }
  }

  lemma StepReadBalance(c: Machine, m: Simple, a: Address)
    requires Refines(c, m)
    ensures StepAgrees(c, m, ReadBalance(a))
  {
    LoadAccountEffect(c.journal, a);
    assert c.journal.Balance(a) == m.Balance(a);
    assert c.journal.IsAccountWarm(a) == m.AccountWarm(a);
    ShowsAccountLoaded(LoadAccount(c.journal, a).journal, c.journal, m, a);
    hide LoadAccount, Extends, AccountLoaded;
    RefinesByExtension(c, LoadAccount(c.journal, a).journal, m, m.WarmAccount(a).now);
  }

  lemma StepSstore(c: Machine, m: Simple, a: Address, k: U256, value: U256)
    requires Refines(c, m)
    ensures StepAgrees(c, m, Op.Sstore(a, k, value))
  {
    hide WellFormed, Extends;
    var s := c.journal;
    var loaded := LoadAccount(s, a).journal;
    LoadAccountEffect(s, a);
    ShowsAccountLoaded(loaded, s, m, a);
    SstoreEffect(loaded, a, k, value);
    var t := JournalState.Sstore(loaded, a, k, value).journal;
    hide LoadAccount, JournalState.Sstore, AccountLoaded;
    ExtendsTransitive(s, loaded, t);
    ShowsSstore(t, loaded, m.WarmAccount(a), a, k, value);
    hide Extends;
    RefinesByExtension(c, t, m, m.WarmAccount(a).WarmSlot(a, k).Write(a, k, value).now);
  }

  lemma ShowsSstore(t: Journal, s: Journal, m: Simple, a: Address, k: U256, value: U256)
    requires Shows(s, m) && SameContext(t, s)
    requires forall b: Address :: t.InfoOf(b) == s.InfoOf(b)
    requires forall b: Address :: t.IsTouched(b) <==> b == a || s.IsTouched(b)
    requires forall b: Address :: t.IsAccountWarm(b) == s.IsAccountWarm(b)
    requires forall b: Address, j: U256 ::
               t.Value(b, j) == if b == a && j == k then value else s.Value(b, j)
    requires forall b: Address, j: U256 ::
               t.IsSlotWarm(b, j) <==> (b == a && j == k) || s.IsSlotWarm(b, j)
    ensures Shows(t, m.WarmSlot(a, k).Write(a, k, value))
  {
    var m' := m.WarmSlot(a, k).Write(a, k, value);
    forall b: Address, j: U256
      ensures t.Value(b, j) == m'.Value(b, j) && t.IsSlotWarm(b, j) == m'.SlotWarm(b, j)
    {
      assert m'.Value(b, j) == if b == a && j == k then value else m.Value(b, j);
      assert m'.SlotWarm(b, j) == ((b == a && j == k) || m.SlotWarm(b, j));
    }
    forall b: Address
      ensures t.InfoOf(b) == m'.InfoOf(b) && t.IsAccountWarm(b) == m'.AccountWarm(b)
    {
      assert t.InfoOf(b) == s.InfoOf(b);
      assert m'.InfoOf(b) == m.InfoOf(b) && m'.AccountWarm(b) == m.AccountWarm(b);
    }
  }

  lemma StepTransfer(c: Machine, m: Simple, call: TransferPrecompile.Call)
    requires Refines(c, m)
    ensures StepAgrees(c, m, CallTransfer(call))
  {
    var s := c.journal;
    var r := TransferPrecompile.Run(s, call);
    TransferLaws.RunMeetsReference(s, call);
    hide TransferPrecompile.Run, Extends;
    if TransferLaws.Refusal(call).Some? {
      assert c.(journal := r.journal) == c;
    } else {
      var order := TransferPrecompile.Decode(call.data);
      hide TransferPrecompile.Decode, TransferLaws.Refusal;
      assert s.Balance(order.from) == m.Balance(order.from);
      assert s.Balance(order.to) == m.Balance(order.to);
      ShowsTransfer(r.journal, s, m, call);
      SimpleTransferEffect(m, call);
      RefinesByExtension(c, r.journal, m, SimpleTransfer(m, call).0.now);
    }
  }

  /** A call that passed the guards pays the whole value or nothing. */
  lemma SimpleTransferEffect(m: Simple, call: TransferPrecompile.Call)
    requires TransferLaws.Refusal(call).None?
    ensures var (m', output) := SimpleTransfer(m, call);
      var order := TransferPrecompile.Decode(call.data);
      var fits := order.from == order.to || m.Balance(order.to) + order.value <= U256_MAX;
      var done := fits && order.value <= m.Balance(order.from);
      var value := if done then order.value else 0;
      && output == Returned(Ok(TransferPrecompile.Output(9000, !done)))
      && m' == m.(now := m'.now)
      && m'.now.values == m.now.values && m'.now.warmSlots == m.now.warmSlots
      && m'.now.written == (if order.from == order.to || value == 0 then m.now.written
                            else m.now.written + {order.from, order.to})
      && (forall a: Address :: m'.InfoOf(a) == m.InfoOf(a).(balance := m'.Balance(a)))
      && (forall a: Address :: m'.Balance(a) == m.Balance(a) + (if a == order.to then value else 0)
                                                - (if a == order.from then value else 0))
      && (forall a: Address :: m'.AccountWarm(a) <==> a == order.to || (fits && a == order.from) || m.AccountWarm(a))
  {
    hide TransferPrecompile.Decode, TransferLaws.Refusal;
  }

  lemma ShowsTransfer(t: Journal, s: Journal, m: Simple, call: TransferPrecompile.Call)
    requires Shows(s, m) && TransferLaws.Refusal(call).None?
    requires var order := TransferPrecompile.Decode(call.data);
      TransferLaws.CarriedOut(t, s, order, TransferLaws.Feasible(s, order))
    ensures Shows(t, SimpleTransfer(m, call).0)
  {
    var order := TransferPrecompile.Decode(call.data);
    var m' := SimpleTransfer(m, call).0;
    SimpleTransferEffect(m, call);
    hide TransferPrecompile.Decode, TransferLaws.Refusal, SimpleTransfer;
    assert s.Balance(order.from) == m.Balance(order.from);
    assert s.Balance(order.to) == m.Balance(order.to);
    forall b: Address, j: U256
      ensures t.Value(b, j) == m'.Value(b, j) && t.IsSlotWarm(b, j) == m'.SlotWarm(b, j)
    {
      assert SameSlotAt(t, s, b, j);
      assert m'.Value(b, j) == m.Value(b, j) && m'.SlotWarm(b, j) == m.SlotWarm(b, j);
    }
    forall b: Address
      ensures t.InfoOf(b) == m'.InfoOf(b) && t.IsAccountWarm(b) == m'.AccountWarm(b)
    {
      assert s.Balance(b) == m.Balance(b) && s.IsAccountWarm(b) == m.AccountWarm(b);
      assert t.Balance(b) == s.Balance(b)
             + (if b == order.to && TransferLaws.Feasible(s, order) then order.value else 0)
             - (if b == order.from && TransferLaws.Feasible(s, order) then order.value else 0);
      assert t.InfoOf(b) == s.InfoOf(b).(balance := t.Balance(b));
    }
    forall b: Address | b in m'.now.written ensures t.IsTouched(b) {
      assert b in m.now.written || t.Balance(b) != s.Balance(b);
    }
  }

  lemma StepWarmList(c: Machine, m: Simple, list: AccessList)
    requires Refines(c, m) && Covers(list, m.list)
    ensures StepAgrees(c, m, WarmList(list))
  {
    var s := c.journal;
    var t := WarmAccessList(s, list);
    var c', m' := c.(journal := t), m.(list := list);
    ShowsLonger(s, t, m, m');
    forall i | 0 <= i < |c.marks| ensures FrameShows(c', m', i) {
      assert FrameShows(c, m, i);
      UndoIgnoresList(s, t, c.marks[i]);
      ShowsLonger(UndoTo(s, c.marks[i]), UndoTo(t, c.marks[i]),
                  m.(now := m.saved[i]), m'.(now := m'.saved[i]));
    }
    assert WellFormed(t);
  }

  lemma {:induction false} UndoIgnoresList(s: Journal, t: Journal, size: nat)
    requires s.accounts == t.accounts && s.log == t.log
    ensures UndoTo(s, size).accounts == UndoTo(t, size).accounts
    decreases |s.log|
  {
    if |s.log| <= size {
    } else {
      UndoIgnoresList(Popped(s), Popped(t), size);
    }
  }

  lemma ShowsLonger(s: Journal, t: Journal, m: Simple, m': Simple)
    requires Shows(s, m) && m' == m.(list := m'.list) && t.accessList == m'.list
    requires t.db == s.db && t.accounts == s.accounts && t.txId == s.txId
    requires Covers(m'.list, m.list)
    ensures Shows(t, m')
  {
    forall b: Address
      ensures t.InfoOf(b) == m'.InfoOf(b) && t.IsAccountWarm(b) == m'.AccountWarm(b)
    {
      assert s.Balance(b) == m.Balance(b) && s.IsAccountWarm(b) == m.AccountWarm(b);
    }
    forall b: Address, j: U256
      ensures t.Value(b, j) == m'.Value(b, j) && t.IsSlotWarm(b, j) == m'.SlotWarm(b, j)
    {
      assert s.Value(b, j) == m.Value(b, j) && s.IsSlotWarm(b, j) == m.SlotWarm(b, j);
    }
  }

  lemma StepOpen(c: Machine, m: Simple)
    requires Refines(c, m)
    ensures StepAgrees(c, m, OpenFrame)
  {
    hide SameAt;
    var s := c.journal;
    var t := OpenCheckpoint(s);
    var c', m' := Machine(t, c.marks + [|s.log|]), m.(saved := m.saved + [m.now]);
    ViewOfAccounts(t, s);
    ShowsThroughView(t, s, m);
    ShowsIgnoresSaved(t, m, m');
    hide SameView, Shows;
    forall i | 0 <= i < |c'.marks| ensures FrameShows(c', m', i) {
      if i < |c.marks| {
        assert FrameShows(c, m, i);
        OuterFrameShows(c, m, t, i);
        ShowsIgnoresSaved(UndoTo(t, c.marks[i]), m.(now := m.saved[i]), m'.(now := m'.saved[i]));
      } else {
        assert UndoTo(t, |t.log|) == t && m'.(now := m'.saved[i]) == m';
      }
    }
    assert WellFormed(t);
  }

  lemma OuterFrameShows(c: Machine, m: Simple, t: Journal, i: nat)
    requires i < |c.marks| && i < |m.saved| && FrameShows(c, m, i)
    requires WellFormed(c.journal) && WellFormed(t) && SameView(t, c.journal) && t.log == c.journal.log
    ensures Shows(UndoTo(t, c.marks[i]), m.(now := m.saved[i]))
  {
    UndoToView(t, c.journal, c.marks[i]);
    ShowsThroughView(UndoTo(t, c.marks[i]), UndoTo(c.journal, c.marks[i]), m.(now := m.saved[i]));
    hide SameView, Shows, UndoTo;
  }

  lemma LowerFrameShows(c: Machine, m: Simple, u: Journal, t: Journal, i: nat)
    requires i < |c.marks| && i < |m.saved| && FrameShows(c, m, i)
    requires WellFormed(u) && WellFormed(t) && SameView(t, u) && t.log == u.log
    requires SameView(UndoTo(u, c.marks[i]), UndoTo(c.journal, c.marks[i]))
    ensures Shows(UndoTo(t, c.marks[i]), m.(now := m.saved[i]))
  {
    hide UndoTo;
    UndoToView(t, u, c.marks[i]);
    ShowsThroughView(UndoTo(u, c.marks[i]), UndoTo(c.journal, c.marks[i]), m.(now := m.saved[i]));
    ShowsThroughView(UndoTo(t, c.marks[i]), UndoTo(u, c.marks[i]), m.(now := m.saved[i]));
  }

  lemma ShowsIgnoresSaved(s: Journal, m: Simple, m': Simple)
    requires Shows(s, m) && m' == m.(saved := m'.saved)
    ensures Shows(s, m')
  {
  }

  /** Closing a frame on a journal that shows the new present keeps the frames below. */
  lemma CloseFrame(c: Machine, m: Simple, u: Journal, now: Snapshot)
    requires Refines(c, m) && c.marks != []
    requires WellFormed(u) && Shows(u, m.(now := now)) && u.depth == c.journal.depth
    requires c.marks[|c.marks| - 1] <= |u.log|
    requires forall i :: 0 <= i < |c.marks| - 1 ==>
               SameView(UndoTo(u, c.marks[i]), UndoTo(c.journal, c.marks[i]))
    ensures var last := |c.marks| - 1;
      Refines(Machine(CommitCheckpoint(u), c.marks[..last]), m.(now := now, saved := m.saved[..last]))
  {
    hide SameAt;
    var last := |c.marks| - 1;
    var t := CommitCheckpoint(u);
    var c', m' := Machine(t, c.marks[..last]), m.(now := now, saved := m.saved[..last]);
    ViewOfAccounts(t, u);
    ShowsThroughView(t, u, m.(now := now));
    ShowsIgnoresSaved(t, m.(now := now), m');
    assert WellFormed(t);
    hide SameView, UndoTo, Shows, WellFormed;
    forall i | 0 <= i < last ensures FrameShows(c', m', i) {
      assert FrameShows(c, m, i);
      LowerFrameShows(c, m, u, t, i);
      ShowsIgnoresSaved(UndoTo(t, c.marks[i]), m.(now := m.saved[i]), m'.(now := m'.saved[i]));
    }
  }

  lemma StepCommit(c: Machine, m: Simple)
    requires Refines(c, m)
    ensures StepAgrees(c, m, CommitFrame)
  {
    if c.marks != [] {
      forall i | 0 <= i < |c.marks| - 1
        ensures SameView(UndoTo(c.journal, c.marks[i]), UndoTo(c.journal, c.marks[i]))
      {
        ViewOfAccounts(UndoTo(c.journal, c.marks[i]), UndoTo(c.journal, c.marks[i]));
      }
      assert m.(now := m.now) == m;
      CloseFrame(c, m, c.journal, m.now);
    }
  }

  lemma StepRevert(c: Machine, m: Simple)
    requires Refines(c, m)
    ensures StepAgrees(c, m, RevertFrame)
  {
    if c.marks != [] {
      var last := |c.marks| - 1;
      var u := UndoTo(c.journal, c.marks[last]);
      UndoToWellFormed(c.journal, c.marks[last]);
      assert FrameShows(c, m, last);
      forall i | 0 <= i < last
        ensures SameView(UndoTo(u, c.marks[i]), UndoTo(c.journal, c.marks[i]))
      {
        UndoToTwice(c.journal, c.marks[last], c.marks[i]);
        ViewOfAccounts(UndoTo(u, c.marks[i]), UndoTo(c.journal, c.marks[i]));
      }
      CloseFrame(c, m, u, m.saved[last]);
    }
  }

  lemma StepEndTransaction(c: Machine, m: Simple)
    requires Refines(c, m)
    ensures StepAgrees(c, m, EndTransaction)
  {
    var s, m' := c.journal, SimplePerform(m, EndTransaction).0;
    var t := CommitTx(s);
    forall b: Address
      ensures t.InfoOf(b) == m'.InfoOf(b) && t.IsAccountWarm(b) == m'.AccountWarm(b)
    {
      assert s.Balance(b) == m.Balance(b);
      assert b in s.accounts ==> StampedAt(s.accounts[b], s.txId);
    }
    forall b: Address, j: U256
      ensures t.Value(b, j) == m'.Value(b, j) && t.IsSlotWarm(b, j) == m'.SlotWarm(b, j)
    {
      assert s.Value(b, j) == m.Value(b, j);
      assert b in s.accounts ==> StampedAt(s.accounts[b], s.txId);
    }
    forall b | b in t.accounts ensures StampedAt(t.accounts[b], t.txId) {
      assert StampedAt(s.accounts[b], s.txId);
    }
  }

  lemma StepRefines(c: Machine, m: Simple, op: Op)
    requires Refines(c, m) && (op.WarmList? ==> Covers(op.list, m.list))
    ensures StepAgrees(c, m, op)
  {
    match op
    case Blockhash(env, number, gas) => StepBlockhash(c, m, env, number, gas);
    case Sload(a, k, gas) => StepSload(c, m, a, k, gas);
    case ReadBalance(a) => StepReadBalance(c, m, a);
    case Sstore(a, k, value) => StepSstore(c, m, a, k, value);
    case CallTransfer(call) => StepTransfer(c, m, call);
    case WarmList(list) => StepWarmList(c, m, list);
    case OpenFrame => StepOpen(c, m);
    case CommitFrame => StepCommit(c, m);
    case RevertFrame => StepRevert(c, m);
    case EndTransaction => StepEndTransaction(c, m);
  }

  /** For every interleaving of reads, writes, BLOCKHASH, transfers, nested checkpoints, reverts,
      access lists and transaction boundaries, the journal and the snapshots give the same values,
      gas and halts, and stay in step. */
  lemma {:induction false} RunRefines(c: Machine, m: Simple, ops: seq<Op>)
    requires Refines(c, m) && ListsGrow(ops, m.list)
    ensures Run(c, ops).1 == SimpleRun(m, ops).1
    ensures Refines(Run(c, ops).0, SimpleRun(m, ops).0)
    decreases |ops|
  {
    if ops == [] {
    } else {
      StepRefines(c, m, ops[0]);
      RunRefines(Perform(c, ops[0]).0, SimplePerform(m, ops[0]).0, ops[1..]);
    }
  }

  /** Every journal between call frames starts a run of its own, whatever its transaction has already
      loaded, deducted and warmed. */
  lemma EveryJournalRefines(s: Journal)
    requires WellFormed(s) && s.db.Healthy() && s.depth == 0
    ensures Refines(Machine(s, []), SimpleOf(s))
  {
  }
}
