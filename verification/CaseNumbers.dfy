/**
 * Workspace-scoped case numbers: the renumbering and the allocation trigger of
 * migration `13cfd6e83e36`, the latter run by concurrent transactions.
 */
module CaseNumbers {
  import opened Wrappers

  type WorkspaceId = nat
  type CaseId = nat
  type TxId = nat

  /** What fits a PostgreSQL `INTEGER` column. */
  predicate IsInteger(n: int) {
    -0x8000_0000 <= n <= 0x7fff_ffff
  }

  datatype Case = Case(ws: WorkspaceId, number: int)

  type Cases = map<CaseId, Case>
  type Counters = map<WorkspaceId, int>

  // ---------------------------------------------------------------- renumbering

  function Earlier(cases: Cases, id: CaseId): set<CaseId>
    requires id in cases
  {
    set other | other in cases && cases[other].ws == cases[id].ws && cases[other].number < cases[id].number
  }

  function InWorkspace(cases: Cases, w: WorkspaceId): set<CaseId> {
    set id | id in cases && cases[id].ws == w
  }

  /** `row_number()` over the workspace in the old order, for numbers that differ. */
  function Renumbered(cases: Cases): Cases {
    map id | id in cases :: cases[id].(number := |Earlier(cases, id)| + 1)
  }

  function Numbers(cases: Cases, w: WorkspaceId): set<int> {
    set id | id in InWorkspace(cases, w) :: cases[id].number
  }

  /** `max(case_number)` over some cases. */
  ghost predicate IsTop(cases: Cases, ids: set<CaseId>, top: CaseId) {
    ids <= cases.Keys && top in ids && forall id :: id in ids ==> cases[id].number <= cases[top].number
  }

  lemma {:induction false} TopExists(cases: Cases, ids: set<CaseId>)
    requires ids != {} && ids <= cases.Keys
    ensures exists top :: IsTop(cases, ids, top)
    decreases |ids|
  {
    var x :| x in ids;
    if ids == {x} {
      assert IsTop(cases, ids, x);
    } else {
      TopExists(cases, ids - {x});
      var top :| IsTop(cases, ids - {x}, top);
      assert IsTop(cases, ids, if cases[x].number > cases[top].number then x else top);
    }
  }

  ghost function TopNumber(cases: Cases, w: WorkspaceId): (m: int)
    requires InWorkspace(cases, w) != {}
    ensures m in Numbers(cases, w)
    ensures forall k :: k in Numbers(cases, w) ==> k <= m
  {
    TopExists(cases, InWorkspace(cases, w));
    var top :| IsTop(cases, InWorkspace(cases, w), top);
    cases[top].number
  }

  /** The counters of workspaces that have cases become the largest number in use. */
  ghost function Initialised(counters: Counters, cases: Cases): Counters {
    map w | w in counters ::
      if InWorkspace(cases, w) == {} then counters[w] else TopNumber(cases, w)
  }

  /** No two cases of a workspace share a number. */
  ghost predicate DistinctNumbers(cases: Cases) {
    forall a, b {:trigger Differ(cases, a, cases, b)} :: a in cases && b in cases && a != b ==> Differ(cases, a, cases, b)
  }

  predicate Differ(cases: Cases, a: CaseId, cases': Cases, b: CaseId)
    requires a in cases && b in cases'
  {
    cases[a].ws != cases'[b].ws || cases[a].number != cases'[b].number
  }

  /** Exactly the numbers 1..n. */
  ghost predicate Dense(numbers: set<int>, n: int) {
    forall k :: k in numbers <==> 1 <= k <= n
  }

  lemma RenumberingKeepsOrder(cases: Cases, a: CaseId, b: CaseId)
    requires a in cases && b in cases && cases[a].ws == cases[b].ws
    ensures cases[a].number < cases[b].number ==> Renumbered(cases)[a].number < Renumbered(cases)[b].number
    ensures cases[a].number == cases[b].number ==> Renumbered(cases)[a].number == Renumbered(cases)[b].number
  {
    if cases[a].number < cases[b].number {
      assert a in Earlier(cases, b) && a !in Earlier(cases, a);
      CardinalityOfSubset(Earlier(cases, a) + {a}, Earlier(cases, b));
    } else if cases[a].number == cases[b].number {
      assert Earlier(cases, a) == Earlier(cases, b);
    }
  }

  /** A set of n integers within 1..n is all of 1..n. */
  lemma {:induction false} PigeonholeInterval(s: set<int>, n: nat)
    requires |s| == n && forall x: int :: x in s ==> 1 <= x <= n
    ensures Dense(s, n)
    decreases n
  {
    if n > 0 {
      if n !in s {
        IntervalBound(s, n - 1);
      }
      PigeonholeInterval(s - {n}, n - 1);
      forall k: int ensures k in s <==> 1 <= k <= n {
        assert k != n ==> (k in s <==> k in s - {n});
      }
    }
  }

  lemma {:induction false} IntervalBound(s: set<int>, n: nat)
    requires forall x: int :: x in s ==> 1 <= x <= n
    ensures |s| <= n
    decreases n
  {
    if n == 0 {
      forall x: int ensures x !in s {}
      assert s == {};
    } else {
      IntervalBound(s - {n}, n - 1);
      CardinalityOfSubset(s, (s - {n}) + {n});
    }
  }

  lemma {:induction false} ImageSize(cases: Cases, ids: set<CaseId>)
    requires forall id :: id in ids ==> id in cases
    requires forall a, b :: a in ids && b in ids && a != b ==> cases[a].number != cases[b].number
    ensures |set id | id in ids :: cases[id].number| == |ids|
    decreases |ids|
  {
    var image := set id | id in ids :: cases[id].number;
    if ids == {} {
      assert image == {};
    } else {
      var x :| x in ids;
      ImageSize(cases, ids - {x});
      var rest := set id | id in ids - {x} :: cases[id].number;
      assert image == rest + {cases[x].number};
      assert cases[x].number !in rest;
    }
  }

  /** Per workspace the new numbers are exactly 1..n, each held by one case, in the old order. */
  lemma RenumberedIsDense(cases: Cases, w: WorkspaceId)
    requires DistinctNumbers(cases)
    ensures DistinctNumbers(Renumbered(cases))
    ensures Dense(Numbers(Renumbered(cases), w), |InWorkspace(cases, w)|)
  {
    var after := Renumbered(cases);
    forall a, b | a in after && b in after && a != b
      ensures Differ(after, a, after, b)
    {
      assert Differ(cases, a, cases, b);
      if cases[a].ws == cases[b].ws {
        RenumberingKeepsOrder(cases, a, b);
        RenumberingKeepsOrder(cases, b, a);
      }
    }
    var ids := InWorkspace(cases, w);
    forall a, b | a in ids && b in ids && a != b ensures after[a].number != after[b].number {
      assert Differ(after, a, after, b);
    }
    ImageSize(after, ids);
    assert InWorkspace(after, w) == ids;
    forall id | id in ids ensures 1 <= after[id].number <= |ids| {
      assert id !in Earlier(cases, id);
      CardinalityOfSubset(Earlier(cases, id) + {id}, ids);
    }
    PigeonholeInterval(Numbers(after, w), |ids|);
  }

  // ---------------------------------------------------------------- transactions

  /**
   * An open transaction: the counters it has raised, whose workspace rows it locks until it ends,
   * and the case rows it has inserted and deleted.
   */
  datatype Tx = Tx(raised: Counters, inserted: Cases, deleted: set<CaseId>)

  /** The committed tables, the open transactions, and every (workspace, number) ever committed. */
  datatype State = State(
    counters: Counters,
    cases: Cases,
    open: map<TxId, Tx>,
    ever: set<(WorkspaceId, int)>)

  datatype Step =
    | NewWorkspace(w: WorkspaceId)
    | Begin(t: TxId)
    | Insert(t: TxId, id: CaseId, w: WorkspaceId, number: Option<int>)
    | Delete(t: TxId, id: CaseId)
    | Commit(t: TxId)
    | Abort(t: TxId)

  datatype Failure = NoTransaction | NoSuchCase | NoSuchWorkspace | OutOfRange | DuplicateId | DuplicateNumber

  datatype Outcome = Done(next: State) | Blocked | Failed(why: Failure)

  predicate LockedByOther(s: State, t: TxId, w: WorkspaceId) {
    exists u :: u in s.open && u != t && w in s.open[u].raised
  }

  predicate DeletedByOther(s: State, t: TxId, id: CaseId) {
    exists u :: u in s.open && u != t && id in s.open[u].deleted
  }

  /** A committed row has the identifier, unless the transaction itself has deleted it. */
  predicate HasRow(s: State, t: TxId, id: CaseId)
    requires t in s.open
  {
    id in s.cases && id !in s.open[t].deleted
  }

  predicate InsertedByOther(s: State, t: TxId, id: CaseId) {
    exists u :: u in s.open && u != t && id in s.open[u].inserted
  }

  /** The counter value a transaction sees: its own update, else the committed one. */
  function Seen(s: State, t: TxId, w: WorkspaceId): int
    requires t in s.open && w in s.counters
  {
    if w in s.open[t].raised then s.open[t].raised[w] else s.counters[w]
  }

  /** The trigger: the counter and the number of the new row. */
  function Assign(seen: int, number: Option<int>): (int, int) {
    match number
    case None => (seen + 1, seen + 1)
    case Some(n) => (if seen >= n then seen else n, n)
  }

  /** Rows that hold a number, as the unique index sees them for one transaction. */
  predicate Taken(s: State, t: TxId, w: WorkspaceId, n: int)
    requires t in s.open
  {
    || (exists id :: id in s.cases && id !in s.open[t].deleted && s.cases[id] == Case(w, n) && !DeletedByOther(s, t, id))
    || (exists id :: id in s.open[t].inserted && s.open[t].inserted[id] == Case(w, n))
  }

  /** A committed row that another open transaction is deleting holds the number: wait for it. */
  predicate Undecided(s: State, t: TxId, w: WorkspaceId, n: int) {
    exists id :: id in s.cases && s.cases[id] == Case(w, n) && DeletedByOther(s, t, id)
  }

  function WithTx(s: State, t: TxId, tx: Tx): State {
    s.(open := s.open[t := tx])
  }

  function InsertCase(s: State, t: TxId, id: CaseId, w: WorkspaceId, number: Option<int>): Outcome {
    if t !in s.open then Failed(NoTransaction)
    else if w !in s.counters then Failed(NoSuchWorkspace)
    else if LockedByOther(s, t, w) then Blocked
    else
      var (counter, n) := Assign(Seen(s, t, w), number);
      if !IsInteger(n) then Failed(OutOfRange)
      else if id in s.open[t].inserted || (HasRow(s, t, id) && !DeletedByOther(s, t, id)) then Failed(DuplicateId)
      else if InsertedByOther(s, t, id) || DeletedByOther(s, t, id) then Blocked
      else if Taken(s, t, w, n) then Failed(DuplicateNumber)
      else if Undecided(s, t, w, n) then Blocked
      else Done(WithTx(s, t, Added(s.open[t], id, Case(w, n), counter)))
  }

  function Added(tx: Tx, id: CaseId, c: Case, counter: int): Tx {
    Tx(tx.raised[c.ws := counter], tx.inserted[id := c], tx.deleted)
  }

  function DeleteCase(s: State, t: TxId, id: CaseId): Outcome {
    if t !in s.open then Failed(NoTransaction)
    else
      var tx := s.open[t];
      if id in tx.inserted then Done(WithTx(s, t, tx.(inserted := tx.inserted - {id})))
      else if id !in s.cases || id in tx.deleted then Failed(NoSuchCase)
      else if DeletedByOther(s, t, id) then Blocked
      else Done(WithTx(s, t, tx.(deleted := tx.deleted + {id})))
  }

  function History(cases: Cases): set<(WorkspaceId, int)> {
    set id | id in cases :: (cases[id].ws, cases[id].number)
  }

  function Committed(s: State, t: TxId): State
    requires t in s.open
  {
    var tx := s.open[t];
    State(s.counters + tx.raised, (s.cases - tx.deleted) + tx.inserted, s.open - {t}, s.ever + History(tx.inserted))
  }

  function Apply(s: State, step: Step): Outcome {
    match step
    case NewWorkspace(w) => if w in s.counters then Failed(DuplicateId) else Done(s.(counters := s.counters[w := 0]))
    case Begin(t) => if t in s.open then Failed(NoTransaction) else Done(WithTx(s, t, Tx(map[], map[], {})))
    case Insert(t, id, w, number) => InsertCase(s, t, id, w, number)
    case Delete(t, id) => DeleteCase(s, t, id)
    case Commit(t) => if t in s.open then Done(Committed(s, t)) else Failed(NoTransaction)
    case Abort(t) => if t in s.open then Done(s.(open := s.open - {t})) else Failed(NoTransaction)
  }

  /** An interleaving of all transactions; a step that waits or fails leaves the tables alone. */
  function Run(s: State, steps: seq<Step>): State
    decreases |steps|
  {
    if steps == [] then s else Run(Next(s, steps[0]), steps[1..])
  }

  function Next(s: State, step: Step): State {
    match Apply(s, step)
    case Done(next) => next
    case _ => s
  }

  // ---------------------------------------------------------------- bounds and locks

  /** No committed number exceeds its counter, and no open transaction lags behind it. */
  ghost predicate Bounded(s: State) {
    EverBounded(s) && CasesKnown(s) && AllBounded(s) && LocksApart(s)
  }

  ghost predicate EverBounded(s: State) {
    forall p :: p in s.ever ==> p.0 in s.counters && p.1 <= s.counters[p.0]
  }

  ghost predicate CasesKnown(s: State) {
    forall id :: id in s.cases ==> (s.cases[id].ws, s.cases[id].number) in s.ever
  }

  ghost predicate AllBounded(s: State) {
    forall t :: t in s.open ==> TxBounded(s.counters, s.open[t])
  }

  ghost predicate LocksApart(s: State) {
    forall t, u {:trigger Apart(s.open[t], s.open[u])} :: t in s.open && u in s.open && t != u ==>
      Apart(s.open[t], s.open[u])
  }

  ghost predicate TxBounded(counters: Counters, tx: Tx) {
    && (forall w :: w in tx.raised ==> w in counters && counters[w] <= tx.raised[w])
    && (forall id :: id in tx.inserted ==>
          tx.inserted[id].ws in tx.raised && tx.inserted[id].number <= tx.raised[tx.inserted[id].ws])
  }

  /** The transactions lock different workspaces. */
  ghost predicate Apart(a: Tx, b: Tx) {
    forall w :: w in a.raised ==> w !in b.raised
  }

  lemma TxKeepsEverBounded(s: State, t: TxId, tx: Tx)
    ensures EverBounded(s) ==> EverBounded(WithTx(s, t, tx))
    ensures CasesKnown(s) ==> CasesKnown(WithTx(s, t, tx))
  {}

  lemma TxKeepsAllBounded(s: State, t: TxId, tx: Tx)
    requires AllBounded(s) && TxBounded(s.counters, tx)
    ensures AllBounded(WithTx(s, t, tx))
  {}

  lemma TxKeepsLocksApart(s: State, t: TxId, tx: Tx)
    requires LocksApart(s) && forall u :: u in s.open && u != t ==> Apart(tx, s.open[u])
    ensures LocksApart(WithTx(s, t, tx))
  {
    var s' := WithTx(s, t, tx);
    forall u, v | u in s'.open && v in s'.open && u != v ensures Apart(s'.open[u], s'.open[v]) {
      if u != t && v != t {
        assert Apart(s.open[u], s.open[v]);
      } else {
        assert Apart(tx, s.open[if u == t then v else u]);
      }
    }
  }

  lemma TxKeepsBounded(s: State, t: TxId, tx: Tx)
    requires Bounded(s) && TxBounded(s.counters, tx)
    requires forall u :: u in s.open && u != t ==> Apart(tx, s.open[u])
    ensures Bounded(WithTx(s, t, tx))
  {
    TxKeepsEverBounded(s, t, tx);
    TxKeepsAllBounded(s, t, tx);
    TxKeepsLocksApart(s, t, tx);
  }

  lemma AddedKeepsTxBounded(counters: Counters, tx: Tx, id: CaseId, c: Case, counter: int)
    requires TxBounded(counters, tx) && c.ws in counters && c.number <= counter
    requires counter >= if c.ws in tx.raised then tx.raised[c.ws] else counters[c.ws]
    ensures TxBounded(counters, Added(tx, id, c, counter))
  {}

  /** What a successful insertion amounts to. */
  lemma {:induction false} InsertDone(
      s: State, t: TxId, id: CaseId, w: WorkspaceId, number: Option<int>) returns (counter: int, n: int)
    requires InsertCase(s, t, id, w, number).Done?
    ensures t in s.open && w in s.counters && !LockedByOther(s, t, w)
    ensures (counter, n) == Assign(Seen(s, t, w), number)
    ensures !HasRow(s, t, id) && id !in s.open[t].inserted && !InsertedByOther(s, t, id)
    ensures !Taken(s, t, w, n) && !Undecided(s, t, w, n)
    ensures InsertCase(s, t, id, w, number).next == WithTx(s, t, Added(s.open[t], id, Case(w, n), counter))
  {
    var p := Assign(Seen(s, t, w), number);
    counter, n := p.0, p.1;
  }

  /** A deletion takes a row out of the transaction's own insertions, or marks a committed one. */
  ghost predicate Shrunk(tx: Tx, tx': Tx) {
    && tx'.raised == tx.raised
    && (forall id :: id in tx'.inserted ==> id in tx.inserted && tx'.inserted[id] == tx.inserted[id])
  }

  /** What a successful deletion amounts to. */
  lemma DeleteDone(s: State, t: TxId, id: CaseId) returns (tx: Tx)
    requires DeleteCase(s, t, id).Done?
    ensures t in s.open && Shrunk(s.open[t], tx) && DeleteCase(s, t, id).next == WithTx(s, t, tx)
    ensures tx.deleted == s.open[t].deleted ||
            (tx.inserted == s.open[t].inserted && tx.deleted == s.open[t].deleted + {id} &&
             id in s.cases && !DeletedByOther(s, t, id))
  {
    tx := DeleteCase(s, t, id).next.open[t];
  }

  lemma CommitKeepsEverBounded(s: State, t: TxId)
    requires EverBounded(s) && t in s.open && TxBounded(s.counters, s.open[t])
    ensures EverBounded(Committed(s, t))
  {
    var tx := s.open[t];
    var s' := Committed(s, t);
    forall p | p in s'.ever ensures p.0 in s'.counters && p.1 <= s'.counters[p.0] {
      if p !in s.ever {
        var id :| id in tx.inserted && p == (tx.inserted[id].ws, tx.inserted[id].number);
      }
    }
  }

  lemma CommitKeepsCasesKnown(s: State, t: TxId)
    requires CasesKnown(s) && t in s.open
    ensures CasesKnown(Committed(s, t))
  {
    var tx := s.open[t];
    assert forall id :: id in tx.inserted ==> (tx.inserted[id].ws, tx.inserted[id].number) in History(tx.inserted);
  }

  lemma OtherStaysBounded(counters: Counters, tx: Tx, other: Tx)
    requires TxBounded(counters, other) && Apart(other, tx)
    ensures TxBounded(counters + tx.raised, other)
  {}

  lemma CommitKeepsBounded(s: State, t: TxId)
    requires Bounded(s) && t in s.open
    ensures Bounded(Committed(s, t))
  {
    CommitKeepsEverBounded(s, t);
    CommitKeepsCasesKnown(s, t);
    CommitKeepsAllBounded(s, t);
    assert LocksApart(Committed(s, t));
  }

  lemma CommitKeepsAllBounded(s: State, t: TxId)
    requires AllBounded(s) && LocksApart(s) && t in s.open
    ensures AllBounded(Committed(s, t))
  {
    forall u | u in s.open && u != t ensures TxBounded(Committed(s, t).counters, s.open[u]) {
      assert Apart(s.open[u], s.open[t]);
      OtherStaysBounded(s.counters, s.open[t], s.open[u]);
    }
  }

  lemma NewWorkspaceKeepsBounded(s: State, w: WorkspaceId)
    requires Bounded(s) && w !in s.counters
    ensures Bounded(s.(counters := s.counters[w := 0]))
  {
    var s' := s.(counters := s.counters[w := 0]);
    forall u | u in s'.open ensures TxBounded(s'.counters, s'.open[u]) {
      TxBoundedMore(s.counters, w, s.open[u]);
    }
    assert EverBounded(s') && CasesKnown(s') && LocksApart(s');
  }

  lemma TxBoundedMore(counters: Counters, w: WorkspaceId, tx: Tx)
    requires TxBounded(counters, tx) && w !in counters
    ensures TxBounded(counters[w := 0], tx)
  {}

  lemma {:induction false} InsertKeepsBounded(s: State, t: TxId, id: CaseId, w: WorkspaceId, number: Option<int>)
    requires Bounded(s) && InsertCase(s, t, id, w, number).Done?
    ensures Bounded(InsertCase(s, t, id, w, number).next)
  {
    var counter, n := InsertDone(s, t, id, w, number);
    var tx := Added(s.open[t], id, Case(w, n), counter);
    assert TxBounded(s.counters, s.open[t]);
    AddedKeepsTxBounded(s.counters, s.open[t], id, Case(w, n), counter);
    forall u | u in s.open && u != t ensures Apart(tx, s.open[u]) {
      assert Apart(s.open[t], s.open[u]);
    }
    TxKeepsBounded(s, t, tx);
  }

  lemma DeleteKeepsBounded(s: State, t: TxId, id: CaseId)
    requires Bounded(s) && DeleteCase(s, t, id).Done?
    ensures Bounded(DeleteCase(s, t, id).next)
  {
    var tx := DeleteDone(s, t, id);
    assert TxBounded(s.counters, s.open[t]);
    forall u | u in s.open && u != t ensures Apart(tx, s.open[u]) {
      assert Apart(s.open[t], s.open[u]);
    }
    TxKeepsBounded(s, t, tx);
  }

  lemma BeginKeepsBounded(s: State, t: TxId)
    requires Bounded(s)
    ensures Bounded(WithTx(s, t, Tx(map[], map[], {})))
  {
    TxKeepsBounded(s, t, Tx(map[], map[], {}));
  }

  lemma AbortKeepsBounded(s: State, t: TxId)
    requires Bounded(s)
    ensures Bounded(s.(open := s.open - {t}))
  {}

  lemma StepKeepsBounded(s: State, step: Step)
    requires Bounded(s) && Apply(s, step).Done?
    ensures Bounded(Apply(s, step).next)
  {
    match step
    case NewWorkspace(w) => NewWorkspaceKeepsBounded(s, w);
    case Begin(t) => BeginKeepsBounded(s, t);
    case Insert(t, id, w, number) => InsertKeepsBounded(s, t, id, w, number);
    case Delete(t, id) => DeleteKeepsBounded(s, t, id);
    case Commit(t) => CommitKeepsBounded(s, t);
    case Abort(t) => AbortKeepsBounded(s, t);
  }

  // ---------------------------------------------------------------- identifiers

  /** Uncommitted rows are new or replace a row their transaction deleted, and no row is inserted or deleted twice. */
  ghost predicate Distinct(s: State) {
    && (forall t :: t in s.open ==> TxDistinct(s.cases, s.open[t]))
    && (forall t, u {:trigger RowsApart(s.open[t], s.open[u])} :: t in s.open && u in s.open && t != u ==>
          RowsApart(s.open[t], s.open[u]))
  }

  ghost predicate TxDistinct(cases: Cases, tx: Tx) {
    && (forall id :: id in tx.inserted && id in cases ==> id in tx.deleted)
    && (forall id :: id in tx.deleted ==> id in cases)
  }

  ghost predicate RowsApart(a: Tx, b: Tx) {
    && (forall id :: id in a.inserted ==> id !in b.inserted)
    && (forall id :: id in a.deleted ==> id !in b.deleted)
  }

  lemma TxKeepsDistinct(s: State, t: TxId, tx: Tx)
    requires Distinct(s) && TxDistinct(s.cases, tx)
    requires forall u :: u in s.open && u != t ==> RowsApart(tx, s.open[u])
    ensures Distinct(WithTx(s, t, tx))
  {
    forall u | u in s.open && u != t ensures RowsApart(s.open[u], tx) {
      assert RowsApart(tx, s.open[u]);
    }
  }

  lemma CommitKeepsDistinct(s: State, t: TxId)
    requires Distinct(s) && t in s.open
    ensures Distinct(Committed(s, t))
  {
    var s' := Committed(s, t);
    forall u | u in s'.open ensures TxDistinct(s'.cases, s'.open[u]) {
      assert TxDistinct(s.cases, s.open[u]) && RowsApart(s.open[u], s.open[t]);
    }
  }

  lemma {:induction false} StepKeepsDistinct(s: State, step: Step)
    requires Distinct(s) && Apply(s, step).Done?
    ensures Distinct(Apply(s, step).next)
  {
    match step
    case NewWorkspace(w) => assert Distinct(s.(counters := s.counters[w := 0]));
    case Begin(t) => TxKeepsDistinct(s, t, Tx(map[], map[], {}));
    case Insert(t, id, w, number) =>
      var counter, n := InsertDone(s, t, id, w, number);
      var tx := Added(s.open[t], id, Case(w, n), counter);
      assert TxDistinct(s.cases, s.open[t]);
      forall u | u in s.open && u != t ensures RowsApart(tx, s.open[u]) {
        assert RowsApart(s.open[t], s.open[u]);
      }
      TxKeepsDistinct(s, t, tx);
    case Delete(t, id) =>
      var tx := DeleteDone(s, t, id);
      assert TxDistinct(s.cases, s.open[t]);
      forall u | u in s.open && u != t ensures RowsApart(tx, s.open[u]) {
        assert RowsApart(s.open[t], s.open[u]);
      }
      TxKeepsDistinct(s, t, tx);
    case Commit(t) => CommitKeepsDistinct(s, t);
    case Abort(t) => assert Distinct(s.(open := s.open - {t}));
  }

  ghost predicate Sane(s: State) {
    Bounded(s) && Distinct(s)
  }

  lemma StepKeepsSane(s: State, step: Step)
    requires Sane(s) && Apply(s, step).Done?
    ensures Sane(Apply(s, step).next)
  {
    StepKeepsBounded(s, step);
    StepKeepsDistinct(s, step);
  }

  // ---------------------------------------------------------------- uniqueness

  /** Committed numbers are unique, and stay so when any one open transaction commits. */
  ghost predicate Unique(s: State) {
    && DistinctNumbers(s.cases)
    && (forall t :: t in s.open ==> TxUnique(s.cases, s.open[t]))
  }

  ghost predicate TxUnique(cases: Cases, tx: Tx) {
    && DistinctNumbers(tx.inserted)
    && (forall a, b {:trigger Differ(tx.inserted, a, cases, b)} :: a in tx.inserted && b in cases && b !in tx.deleted ==>
          Differ(tx.inserted, a, cases, b))
  }

  lemma AddedKeepsTxUnique(s: State, t: TxId, id: CaseId, c: Case, counter: int)
    requires t in s.open && TxUnique(s.cases, s.open[t]) && id !in s.open[t].inserted
    requires !Taken(s, t, c.ws, c.number) && !Undecided(s, t, c.ws, c.number)
    ensures TxUnique(s.cases, Added(s.open[t], id, c, counter))
  {
    var tx := s.open[t];
    var tx' := Added(tx, id, c, counter);
    forall b | b in s.cases && b !in tx.deleted ensures s.cases[b] != c {
      assert s.cases[b] == c && DeletedByOther(s, t, b) ==> Undecided(s, t, c.ws, c.number);
    }
    forall a, b | a in tx'.inserted && b in tx'.inserted && a != b
      ensures Differ(tx'.inserted, a, tx'.inserted, b)
    {
      if a != id && b != id {
        assert Differ(tx.inserted, a, tx.inserted, b);
      }
    }
    forall a, b | a in tx'.inserted && b in s.cases && b !in tx'.deleted
      ensures Differ(tx'.inserted, a, s.cases, b)
    {
      if a != id {
        assert Differ(tx.inserted, a, s.cases, b);
      }
    }
  }

  lemma ShrunkKeepsTxUnique(cases: Cases, tx: Tx, tx': Tx)
    requires TxUnique(cases, tx) && Shrunk(tx, tx') && tx.deleted <= tx'.deleted
    ensures TxUnique(cases, tx')
  {
    forall a, b | a in tx'.inserted && b in tx'.inserted && a != b
      ensures Differ(tx'.inserted, a, tx'.inserted, b)
    {
      assert Differ(tx.inserted, a, tx.inserted, b);
    }
    forall a, b | a in tx'.inserted && b in cases && b !in tx'.deleted
      ensures Differ(tx'.inserted, a, cases, b)
    {
      assert Differ(tx.inserted, a, cases, b);
    }
  }

  lemma TxKeepsUnique(s: State, t: TxId, tx: Tx)
    requires Unique(s) && TxUnique(s.cases, tx)
    ensures Unique(WithTx(s, t, tx))
  {}

  lemma MergeKeepsDistinctNumbers(cases: Cases, tx: Tx)
    requires DistinctNumbers(cases) && TxUnique(cases, tx) && TxDistinct(cases, tx)
    ensures DistinctNumbers((cases - tx.deleted) + tx.inserted)
  {
    var merged := (cases - tx.deleted) + tx.inserted;
    forall a, b | a in merged && b in merged && a != b ensures Differ(merged, a, merged, b) {
      if a in tx.inserted && b in tx.inserted {
        assert Differ(tx.inserted, a, tx.inserted, b);
      } else if a in tx.inserted {
        assert Differ(tx.inserted, a, cases, b);
      } else if b in tx.inserted {
        assert Differ(tx.inserted, b, cases, a);
      } else {
        assert Differ(cases, a, cases, b);
      }
    }
  }

  /** Two transactions cannot both hold a row with the same number: they would share a lock. */
  lemma OtherStaysUnique(counters: Counters, cases: Cases, tx: Tx, other: Tx)
    requires TxUnique(cases, other) && TxDistinct(cases, tx) && Apart(tx, other)
    requires TxBounded(counters, tx) && TxBounded(counters, other)
    ensures TxUnique((cases - tx.deleted) + tx.inserted, other)
  {
    var merged := (cases - tx.deleted) + tx.inserted;
    forall a, b | a in other.inserted && b in merged && b !in other.deleted
      ensures Differ(other.inserted, a, merged, b)
    {
      if b in tx.inserted {
        assert tx.inserted[b].ws in tx.raised && other.inserted[a].ws in other.raised;
      } else {
        assert Differ(other.inserted, a, cases, b);
      }
    }
  }

  lemma CommitKeepsUnique(s: State, t: TxId)
    requires Bounded(s) && Distinct(s) && Unique(s) && t in s.open
    ensures Unique(Committed(s, t))
  {
    var s' := Committed(s, t);
    var tx := s.open[t];
    MergeKeepsDistinctNumbers(s.cases, tx);
    forall u | u in s'.open ensures TxUnique(s'.cases, s'.open[u]) {
      assert Apart(tx, s.open[u]);
      OtherStaysUnique(s.counters, s.cases, tx, s.open[u]);
    }
  }

  lemma {:induction false} StepKeepsUnique(s: State, step: Step)
    requires Bounded(s) && Distinct(s) && Unique(s) && Apply(s, step).Done?
    ensures Unique(Apply(s, step).next)
  {
    match step
    case NewWorkspace(w) => assert Unique(s.(counters := s.counters[w := 0]));
    case Begin(t) => TxKeepsUnique(s, t, Tx(map[], map[], {}));
    case Insert(t, id, w, number) => InsertKeepsUnique(s, t, id, w, number);
    case Delete(t, id) =>
      var tx := DeleteDone(s, t, id);
      ShrunkKeepsTxUnique(s.cases, s.open[t], tx);
      TxKeepsUnique(s, t, tx);
    case Commit(t) => CommitKeepsUnique(s, t);
    case Abort(t) => assert Unique(s.(open := s.open - {t}));
  }

  lemma InsertKeepsUnique(s: State, t: TxId, id: CaseId, w: WorkspaceId, number: Option<int>)
    requires Unique(s) && InsertCase(s, t, id, w, number).Done?
    ensures Unique(InsertCase(s, t, id, w, number).next)
  {
    var counter, n := InsertDone(s, t, id, w, number);
    AddedKeepsTxUnique(s, t, id, Case(w, n), counter);
    TxKeepsUnique(s, t, Added(s.open[t], id, Case(w, n), counter));
  }

  ghost predicate Inv(s: State) {
    Sane(s) && Unique(s)
  }

  /** Every interleaving keeps the bounds, the locks and uniqueness. */
  lemma {:induction false} RunKeepsInv(s: State, steps: seq<Step>)
    requires Inv(s)
    ensures Inv(Run(s, steps))
    decreases |steps|
  {
    if steps != [] {
      if Apply(s, steps[0]).Done? {
        StepKeepsSane(s, steps[0]);
        StepKeepsUnique(s, steps[0]);
      }
      RunKeepsInv(Next(s, steps[0]), steps[1..]);
    }
  }

  // ---------------------------------------------------------------- main results

  /** The state right after the migration: renumbered cases, matching counters, nothing open. */
  ghost function Migrated(workspaces: set<WorkspaceId>, cases: Cases): State {
    var after := Renumbered(cases);
    State(Initialised(map w | w in workspaces :: 0, after), after, map[], History(after))
  }

  /** Before the migration numbers were globally unique and every case had a workspace. */
  ghost predicate Legacy(workspaces: set<WorkspaceId>, cases: Cases) {
    DistinctNumbers(cases) && forall id :: id in cases ==> cases[id].ws in workspaces
  }

  /** The migration leaves each workspace with the numbers 1..n and the counter n. */
  lemma MigratedCounters(workspaces: set<WorkspaceId>, cases: Cases, w: WorkspaceId)
    requires Legacy(workspaces, cases) && w in workspaces
    ensures Migrated(workspaces, cases).counters[w] == |InWorkspace(cases, w)|
    ensures Dense(Numbers(Migrated(workspaces, cases).cases, w), |InWorkspace(cases, w)|)
  {
    var n := |InWorkspace(cases, w)|;
    var numbers := Numbers(Renumbered(cases), w);
    RenumberedIsDense(cases, w);
    assert InWorkspace(Renumbered(cases), w) == InWorkspace(cases, w);
    if n > 0 {
      assert n in numbers && TopNumber(Renumbered(cases), w) <= n;
    }
  }

  lemma MigratedInv(workspaces: set<WorkspaceId>, cases: Cases)
    requires Legacy(workspaces, cases)
    ensures Inv(Migrated(workspaces, cases))
  {
    var s := Migrated(workspaces, cases);
    forall p | p in s.ever ensures p.0 in s.counters && p.1 <= s.counters[p.0] {
      var id :| id in s.cases && p == (s.cases[id].ws, s.cases[id].number);
      MigratedCounters(workspaces, cases, p.0);
      assert id in InWorkspace(s.cases, p.0);
      assert p.1 in Numbers(s.cases, p.0);
    }
    RenumberedIsDense(cases, 0);
  }

  lemma AutomaticNumberIsFree(s: State, t: TxId, w: WorkspaceId)
    requires Bounded(s) && t in s.open && w in s.counters
    ensures !Taken(s, t, w, Seen(s, t, w) + 1)
  {
    var n := Seen(s, t, w) + 1;
    assert TxBounded(s.counters, s.open[t]);
    forall other | other in s.cases ensures s.cases[other] != Case(w, n) {
      assert (s.cases[other].ws, s.cases[other].number) in s.ever;
    }
  }

  lemma HeldIsAbove(s: State, t: TxId, id: CaseId, w: WorkspaceId, n: int, open: map<TxId, Tx>)
    requires forall p :: p in s.ever && p.0 == w ==> p.1 < n
    requires t in open && id in open[t].inserted && open[t].inserted[id] == Case(w, n)
    ensures NumbersAbove(s, w, open, t, id)
  {}

  /** A successful automatic insert holds a number above everything ever committed in its workspace. */
  lemma AutomaticNumberIsAbove(s: State, t: TxId, id: CaseId, w: WorkspaceId)
    requires Bounded(s) && InsertCase(s, t, id, w, None).Done?
    ensures NumbersAbove(s, w, InsertCase(s, t, id, w, None).next.open, t, id)
  {
    var _, n := InsertDone(s, t, id, w, None);
    NextIsAbove(s, t, w, n);
    HeldIsAbove(s, t, id, w, n, InsertCase(s, t, id, w, None).next.open);
  }

  /** An automatic number exceeds everything ever committed in its workspace. */
  lemma AutomaticNumberIsNew(s: State, t: TxId, id: CaseId, w: WorkspaceId)
    requires Bounded(s)
    ensures InsertCase(s, t, id, w, None) != Failed(DuplicateNumber)
    ensures InsertCase(s, t, id, w, None).Done? ==>
              NumbersAbove(s, w, InsertCase(s, t, id, w, None).next.open, t, id)
  {
    if t in s.open && w in s.counters {
      AutomaticNumberIsFree(s, t, w);
    }
    if InsertCase(s, t, id, w, None).Done? {
      AutomaticNumberIsAbove(s, t, id, w);
    }
  }

  lemma NextIsAbove(s: State, t: TxId, w: WorkspaceId, n: int)
    requires Bounded(s) && t in s.open && w in s.counters && n == Seen(s, t, w) + 1
    ensures forall p :: p in s.ever && p.0 == w ==> p.1 < n
  {
    assert TxBounded(s.counters, s.open[t]);
  }

  /** The transaction holds the row, with a number above every number ever committed there. */
  ghost predicate NumbersAbove(s: State, w: WorkspaceId, open: map<TxId, Tx>, t: TxId, id: CaseId) {
    t in open && id in open[t].inserted && open[t].inserted[id].ws == w &&
    forall p :: p in s.ever && p.0 == w ==> p.1 < open[t].inserted[id].number
  }

  /**
   * In every interleaving after the migration, an automatic insert never violates uniqueness, and
   * its number exceeds every number ever committed in its workspace, deleted ones included.
   */
  lemma {:induction false} AutomaticNumbersAreNew(
      workspaces: set<WorkspaceId>, cases: Cases, steps: seq<Step>, t: TxId, id: CaseId, w: WorkspaceId)
    requires Legacy(workspaces, cases)
    ensures var s := Run(Migrated(workspaces, cases), steps);
            var outcome := InsertCase(s, t, id, w, None);
            outcome != Failed(DuplicateNumber) &&
            (outcome.Done? ==> NumbersAbove(s, w, outcome.next.open, t, id))
  {
    MigratedInv(workspaces, cases);
    RunKeepsInv(Migrated(workspaces, cases), steps);
    AutomaticNumberIsNew(Run(Migrated(workspaces, cases), steps), t, id, w);
  }

  /** Nothing that was ever committed is forgotten, so no automatic number is used twice. */
  lemma {:induction false} HistoryGrows(s: State, steps: seq<Step>)
    ensures s.ever <= Run(s, steps).ever
    decreases |steps|
  {
    if steps != [] {
      HistoryGrows(Next(s, steps[0]), steps[1..]);
    }
  }

  lemma {:induction false} RunConcat(s: State, first: seq<Step>, more: seq<Step>)
    ensures Run(s, first + more) == Run(Run(s, first), more)
    decreases |first|
  {
    if first == [] {
      assert first + more == more;
    } else {
      assert (first + more)[1..] == first[1..] + more;
      RunConcat(Next(s, first[0]), first[1..], more);
    }
  }

  /**
   * No number is handed out twice: an automatic number at any later point of a run exceeds the number of
   * every case that was committed at an earlier point, deleted since or not.
   */
  lemma {:induction false} NumbersAreNeverReused(
      workspaces: set<WorkspaceId>, cases: Cases, first: seq<Step>, more: seq<Step>, t: TxId, id: CaseId, w: WorkspaceId,
      earlier: CaseId)
    requires Legacy(workspaces, cases)
    requires var s := Run(Migrated(workspaces, cases), first); earlier in s.cases && s.cases[earlier].ws == w
    ensures var outcome := InsertCase(Run(Migrated(workspaces, cases), first + more), t, id, w, None);
            outcome.Done? ==>
              && t in outcome.next.open && id in outcome.next.open[t].inserted
              && outcome.next.open[t].inserted[id].number > Run(Migrated(workspaces, cases), first).cases[earlier].number
  {
    var start := Migrated(workspaces, cases);
    var s := Run(start, first);
    MigratedInv(workspaces, cases);
    RunKeepsInv(start, first);
    assert (s.cases[earlier].ws, s.cases[earlier].number) in s.ever;
    HistoryGrows(s, more);
    RunConcat(start, first, more);
    AutomaticNumbersAreNew(workspaces, cases, first + more, t, id, w);
  }

  /** Committed numbers stay unique per workspace in every interleaving. */
  lemma {:induction false} CommittedNumbersStayUnique(workspaces: set<WorkspaceId>, cases: Cases, steps: seq<Step>)
    requires Legacy(workspaces, cases)
    ensures DistinctNumbers(Run(Migrated(workspaces, cases), steps).cases)
  {
    MigratedInv(workspaces, cases);
    RunKeepsInv(Migrated(workspaces, cases), steps);
  }

  // ---------------------------------------------------------------- no gaps

  predicate AutomaticOnly(step: Step) {
    match step
    case Insert(_, _, _, number) => number == None
    case Delete(_, _) => false
    case _ => true
  }

  /** Committed numbers are 1..counter; an open transaction continues them without a gap. */
  ghost predicate GapFree(s: State) {
    AllDense(s) && AllContinue(s)
  }

  ghost predicate AllContinue(s: State) {
    forall t :: t in s.open ==> Continues(s.counters, s.open[t])
  }

  ghost predicate AllDense(s: State) {
    forall w :: w in s.counters ==> Dense(Numbers(s.cases, w), s.counters[w]) && s.counters[w] >= 0
  }

  ghost predicate Continues(counters: Counters, tx: Tx) {
    && tx.deleted == {}
    && (forall w :: w in tx.raised ==> w in counters && Spans(Numbers(tx.inserted, w), counters[w], tx.raised[w]))
  }

  /** Exactly the numbers lo+1..hi. */
  ghost predicate Spans(numbers: set<int>, lo: int, hi: int) {
    forall k :: k in numbers <==> lo < k <= hi
  }

  lemma UnionNumbers(a: Cases, b: Cases, w: WorkspaceId)
    requires forall id :: id in a ==> id !in b
    ensures Numbers(a + b, w) == Numbers(a, w) + Numbers(b, w)
  {
    assert InWorkspace(a + b, w) == InWorkspace(a, w) + InWorkspace(b, w);
    forall k ensures k in Numbers(a + b, w) <==> k in Numbers(a, w) + Numbers(b, w) {
      if k in Numbers(a, w) {
        var id :| id in InWorkspace(a, w) && a[id].number == k;
        assert id in InWorkspace(a + b, w) && (a + b)[id] == a[id];
      }
      if k in Numbers(b, w) {
        var id :| id in InWorkspace(b, w) && b[id].number == k;
        assert id in InWorkspace(a + b, w) && (a + b)[id] == b[id];
      }
    }
  }

  lemma NoNumbersUnlocked(counters: Counters, tx: Tx, w: WorkspaceId)
    requires TxBounded(counters, tx) && w !in tx.raised
    ensures Numbers(tx.inserted, w) == {}
  {
    assert InWorkspace(tx.inserted, w) == {};
  }

  lemma SpansContinueDense(numbers: set<int>, lo: int, more: set<int>, hi: int)
    requires Dense(numbers, lo) && Spans(more, lo, hi) && 0 <= lo <= hi
    ensures Dense(numbers + more, hi)
  {}

  lemma MergedNumbers(cases: Cases, tx: Tx, w: WorkspaceId)
    requires TxDistinct(cases, tx) && tx.deleted == {}
    ensures Numbers((cases - tx.deleted) + tx.inserted, w) == Numbers(cases, w) + Numbers(tx.inserted, w)
  {
    assert cases - tx.deleted == cases;
    UnionNumbers(cases, tx.inserted, w);
  }

  /** What a transaction adds to a workspace continues the numbers from its counter. */
  lemma TxSpans(counters: Counters, tx: Tx, w: WorkspaceId, hi: int)
    requires TxBounded(counters, tx) && Continues(counters, tx) && w in counters
    requires hi == if w in tx.raised then tx.raised[w] else counters[w]
    ensures Spans(Numbers(tx.inserted, w), counters[w], hi) && counters[w] <= hi
  {
    if w !in tx.raised {
      NoNumbersUnlocked(counters, tx, w);
    }
  }

  lemma MergeIsDense(counters: Counters, cases: Cases, tx: Tx, w: WorkspaceId)
    requires TxBounded(counters, tx) && TxDistinct(cases, tx) && Continues(counters, tx)
    requires w in counters && Dense(Numbers(cases, w), counters[w]) && counters[w] >= 0
    ensures Dense(Numbers((cases - tx.deleted) + tx.inserted, w), (counters + tx.raised)[w])
    ensures (counters + tx.raised)[w] >= 0
  {
    var hi := (counters + tx.raised)[w];
    MergedNumbers(cases, tx, w);
    TxSpans(counters, tx, w, hi);
    SpansContinueDense(Numbers(cases, w), counters[w], Numbers(tx.inserted, w), hi);
  }

  lemma CommitKeepsDense(s: State, t: TxId)
    requires AllBounded(s) && Distinct(s) && AllDense(s) && AllContinue(s) && t in s.open
    ensures AllDense(Committed(s, t))
  {
    var s' := Committed(s, t);
    var tx := s.open[t];
    assert TxBounded(s.counters, tx);
    assert TxDistinct(s.cases, tx);
    assert Continues(s.counters, tx);
    forall w | w in s'.counters ensures Dense(Numbers(s'.cases, w), s'.counters[w]) && s'.counters[w] >= 0 {
      MergeIsDense(s.counters, s.cases, tx, w);
    }
  }

  lemma CommitKeepsContinue(s: State, t: TxId)
    requires LocksApart(s) && AllContinue(s) && t in s.open
    ensures AllContinue(Committed(s, t))
  {
    var s' := Committed(s, t);
    forall u | u in s'.open ensures Continues(s'.counters, s'.open[u]) {
      assert Apart(s.open[u], s.open[t]);
      OtherContinues(s.counters, s.open[t], s.open[u]);
    }
  }

  lemma OtherContinues(counters: Counters, tx: Tx, other: Tx)
    requires Continues(counters, other) && Apart(other, tx)
    ensures Continues(counters + tx.raised, other)
  {}

  lemma AddedSpans(tx: Tx, id: CaseId, c: Case, v: WorkspaceId, lo: int, hi: int)
    requires id !in tx.inserted && lo <= hi && Spans(Numbers(tx.inserted, v), lo, hi) && (v == c.ws ==> c.number == hi + 1)
    ensures Spans(Numbers(Added(tx, id, c, c.number).inserted, v), lo, if v == c.ws then c.number else hi)
  {
    NumbersOfAdded(tx, id, c, c.number, v);
    SpansOneMore(Numbers(tx.inserted, v), lo, hi);
  }

  lemma SpansOneMore(numbers: set<int>, lo: int, hi: int)
    requires Spans(numbers, lo, hi) && lo <= hi
    ensures Spans(numbers + {hi + 1}, lo, hi + 1)
    ensures numbers + {} == numbers
  {}

  lemma AddedContinues(counters: Counters, tx: Tx, id: CaseId, w: WorkspaceId, n: int)
    requires TxBounded(counters, tx) && Continues(counters, tx) && w in counters && id !in tx.inserted
    requires n == (if w in tx.raised then tx.raised[w] else counters[w]) + 1
    ensures Continues(counters, Added(tx, id, Case(w, n), n))
  {
    var raised, numbers := tx.raised[w := n], Added(tx, id, Case(w, n), n).inserted;
    forall v | v in raised ensures v in counters && Spans(Numbers(numbers, v), counters[v], raised[v]) {
      var hi := if v in tx.raised then tx.raised[v] else counters[v];
      TxSpans(counters, tx, v, hi);
      AddedSpans(tx, id, Case(w, n), v, counters[v], hi);
    }
  }

  lemma NumbersOfAdded(tx: Tx, id: CaseId, c: Case, counter: int, w: WorkspaceId)
    requires id !in tx.inserted
    ensures Numbers(Added(tx, id, c, counter).inserted, w) ==
            Numbers(tx.inserted, w) + (if w == c.ws then {c.number} else {})
  {
    var one: Cases := map[id := c];
    assert Added(tx, id, c, counter).inserted == tx.inserted + one;
    UnionNumbers(tx.inserted, one, w);
    assert InWorkspace(one, w) == if w == c.ws then {id} else {};
    assert Numbers(one, w) == if w == c.ws then {c.number} else {};
  }

  lemma TxKeepsGapFree(s: State, t: TxId, tx: Tx)
    requires AllDense(s) && AllContinue(s) && Continues(s.counters, tx)
    ensures AllDense(WithTx(s, t, tx)) && AllContinue(WithTx(s, t, tx))
  {}

  lemma NewWorkspaceKeepsGapFree(s: State, w: WorkspaceId)
    requires CasesKnown(s) && EverBounded(s) && GapFree(s) && w !in s.counters
    ensures GapFree(s.(counters := s.counters[w := 0]))
  {
    var s' := s.(counters := s.counters[w := 0]);
    forall id | id in s.cases ensures s.cases[id].ws != w {
      assert (s.cases[id].ws, s.cases[id].number) in s.ever;
    }
    assert InWorkspace(s.cases, w) == {};
    assert Numbers(s.cases, w) == {};
    forall u | u in s'.open ensures Continues(s'.counters, s'.open[u]) {
      assert Continues(s.counters, s.open[u]);
    }
  }

  lemma AddKeepsGapFree(s: State, t: TxId, id: CaseId, w: WorkspaceId, n: int)
    requires AllDense(s) && AllContinue(s) && t in s.open && w in s.counters
    requires TxBounded(s.counters, s.open[t]) && id !in s.open[t].inserted && n == Seen(s, t, w) + 1
    ensures AllDense(WithTx(s, t, Added(s.open[t], id, Case(w, n), n)))
    ensures AllContinue(WithTx(s, t, Added(s.open[t], id, Case(w, n), n)))
  {
    assert Continues(s.counters, s.open[t]);
    AddedContinues(s.counters, s.open[t], id, w, n);
    TxKeepsGapFree(s, t, Added(s.open[t], id, Case(w, n), n));
  }

  lemma StepKeepsGapFree(s: State, step: Step)
    requires Sane(s) && GapFree(s) && AutomaticOnly(step) && Apply(s, step).Done?
    ensures GapFree(Apply(s, step).next)
  {
    match step
    case NewWorkspace(w) => NewWorkspaceKeepsGapFree(s, w);
    case Begin(t) => TxKeepsGapFree(s, t, Tx(map[], map[], {}));
    case Insert(t, id, w, _) =>
      var _, n := InsertDone(s, t, id, w, None);
      AddKeepsGapFree(s, t, id, w, n);
    case Commit(t) =>
      CommitKeepsDense(s, t);
      CommitKeepsContinue(s, t);
    case Abort(t) => assert GapFree(s.(open := s.open - {t}));
  }

  ghost predicate AllAutomatic(steps: seq<Step>) {
    forall i :: 0 <= i < |steps| ==> AutomaticOnly(steps[i])
  }

  lemma NextKeepsGapFree(s: State, step: Step, next: State)
    requires Sane(s) && GapFree(s) && AutomaticOnly(step) && next == Next(s, step)
    ensures Sane(next) && GapFree(next)
  {
    if Apply(s, step).Done? {
      StepKeepsSane(s, step);
      StepKeepsGapFree(s, step);
    }
  }

  lemma {:induction false} RunKeepsGapFree(s: State, steps: seq<Step>)
    requires Sane(s) && GapFree(s) && AllAutomatic(steps)
    ensures GapFree(Run(s, steps))
    decreases |steps|
  {
    if steps != [] {
      var next := Next(s, steps[0]);
      NextKeepsGapFree(s, steps[0], next);
      RunKeepsGapFree(next, steps[1..]);
    }
  }

  /**
   * With automatic inserts and no deletions, and any number of aborted transactions, the committed numbers of
   * every workspace are exactly 1..last_case_number.
   */
  lemma {:induction false} AutomaticNumbersHaveNoGaps(
      workspaces: set<WorkspaceId>, cases: Cases, steps: seq<Step>, w: WorkspaceId)
    requires Legacy(workspaces, cases)
    requires forall i :: 0 <= i < |steps| ==> !steps[i].Delete? && (steps[i].Insert? ==> steps[i].number == None)
    ensures var s := Run(Migrated(workspaces, cases), steps);
            w in s.counters ==> Dense(Numbers(s.cases, w), s.counters[w])
  {
    var s := Migrated(workspaces, cases);
    MigratedInv(workspaces, cases);
    forall v | v in s.counters ensures Dense(Numbers(s.cases, v), s.counters[v]) && s.counters[v] >= 0 {
      MigratedCounters(workspaces, cases, v);
    }
    RunKeepsGapFree(s, steps);
  }

  // ---------------------------------------------------------------- which insertions succeed

  /** A state that some interleaving of transactions leads to after the migration. */
  ghost predicate Reachable(s: State) {
    exists workspaces: set<WorkspaceId>, cases: Cases, steps: seq<Step> {:trigger Reaches(workspaces, cases, steps, s)} ::
      Reaches(workspaces, cases, steps, s)
  }

  ghost predicate Reaches(workspaces: set<WorkspaceId>, cases: Cases, steps: seq<Step>, s: State) {
    Legacy(workspaces, cases) && Run(Migrated(workspaces, cases), steps) == s
  }

  ghost predicate CountersNatural(s: State) {
    forall w :: w in s.counters ==> s.counters[w] >= 0
  }

  lemma NextKeepsNatural(s: State, step: Step, next: State)
    requires AllBounded(s) && CountersNatural(s) && next == Next(s, step)
    ensures CountersNatural(next)
  {
    match step
    case Insert(t, id, w, number) =>
      if InsertCase(s, t, id, w, number).Done? {
        var _, _ := InsertDone(s, t, id, w, number);
      }
    case Delete(t, id) =>
      if DeleteCase(s, t, id).Done? {
        var _ := DeleteDone(s, t, id);
      }
    case Commit(t) =>
      if t in s.open {
        CommitKeepsNatural(s, t);
      }
    case _ =>
  }

  lemma CommitKeepsNatural(s: State, t: TxId)
    requires AllBounded(s) && CountersNatural(s) && t in s.open
    ensures CountersNatural(Committed(s, t))
  {
    assert TxBounded(s.counters, s.open[t]);
  }

  lemma NextKeepsInv(s: State, step: Step, next: State)
    requires Inv(s) && next == Next(s, step)
    ensures Inv(next)
  {
    if Apply(s, step).Done? {
      StepKeepsSane(s, step);
      StepKeepsUnique(s, step);
    }
  }

  lemma {:induction false} RunKeepsNatural(s: State, steps: seq<Step>)
    requires Inv(s) && CountersNatural(s)
    ensures CountersNatural(Run(s, steps))
    decreases |steps|
  {
    if steps != [] {
      var next := Next(s, steps[0]);
      NextKeepsInv(s, steps[0], next);
      NextKeepsNatural(s, steps[0], next);
      RunKeepsNatural(next, steps[1..]);
    }
  }

  lemma ReachableFacts(s: State)
    requires Reachable(s)
    ensures Inv(s) && CountersNatural(s)
  {
    var workspaces: set<WorkspaceId>, cases: Cases, steps: seq<Step> :| Reaches(workspaces, cases, steps, s);
    var start := Migrated(workspaces, cases);
    MigratedInv(workspaces, cases);
    RunKeepsInv(start, steps);
    forall w | w in start.counters ensures start.counters[w] >= 0 {
      MigratedCounters(workspaces, cases, w);
    }
    RunKeepsNatural(start, steps);
  }

  /** No other open transaction has raised the workspace's counter, and none deals with the identifier. */
  ghost predicate Unhindered(s: State, t: TxId, id: CaseId, w: WorkspaceId) {
    forall u :: u in s.open && u != t ==>
      w !in s.open[u].raised && id !in s.open[u].inserted && id !in s.open[u].deleted
  }

  /** The transaction itself does not see a row with the identifier. */
  ghost predicate IdIsFree(s: State, t: TxId, id: CaseId)
    requires t in s.open
  {
    id !in s.open[t].inserted && (id in s.cases ==> id in s.open[t].deleted)
  }

  /** Every committed row that holds the number is deleted by the transaction, and it has inserted none. */
  ghost predicate NumberIsFree(s: State, t: TxId, w: WorkspaceId, n: int)
    requires t in s.open
  {
    && (forall id :: id in s.cases && s.cases[id].ws == w && s.cases[id].number == n ==> id in s.open[t].deleted)
    && (forall id :: id in s.open[t].inserted ==> s.open[t].inserted[id].ws != w || s.open[t].inserted[id].number != n)
  }

  lemma NumberIsFreeExactly(s: State, t: TxId, w: WorkspaceId, n: int)
    requires Distinct(s) && t in s.open
    ensures NumberIsFree(s, t, w, n) <==> !Taken(s, t, w, n) && !Undecided(s, t, w, n)
  {
    if NumberIsFree(s, t, w, n) {
      forall id, u | id in s.cases && s.cases[id] == Case(w, n) && u in s.open && u != t ensures id !in s.open[u].deleted {
        assert RowsApart(s.open[t], s.open[u]);
      }
    } else if !Taken(s, t, w, n) {
      var id :| id in s.cases && s.cases[id].ws == w && s.cases[id].number == n && id !in s.open[t].deleted;
      assert s.cases[id] == Case(w, n);
    }
  }

  /** The transaction holds one row more and the counter, and nothing else has changed. */
  ghost predicate Inserted(s: State, next: State, t: TxId, id: CaseId, w: WorkspaceId, n: int, counter: int)
    requires t in s.open
  {
    var tx := s.open[t];
    next == s.(open := s.open[t := Tx(tx.raised[w := counter], tx.inserted[id := Case(w, n)], tx.deleted)])
  }

  /** Which numbers a transaction can store: those of a PostgreSQL `INTEGER` whose holders it has deleted. */
  ghost predicate Storable(s: State, t: TxId, w: WorkspaceId, n: int)
    requires t in s.open
  {
    -2147483648 <= n <= 2147483647 && NumberIsFree(s, t, w, n)
  }

  /** An insertion of any kind succeeds exactly when nobody is in the way and its number can be stored. */
  lemma InsertExactly(s: State, t: TxId, id: CaseId, w: WorkspaceId, number: Option<int>, n: int)
    requires Distinct(s) && t in s.open && w in s.counters && n == Assign(Seen(s, t, w), number).1
    ensures InsertCase(s, t, id, w, number).Done? <==>
            Unhindered(s, t, id, w) && IdIsFree(s, t, id) && Storable(s, t, w, n)
  {
    NumberIsFreeExactly(s, t, w, n);
    assert LockedByOther(s, t, w) || InsertedByOther(s, t, id) || DeletedByOther(s, t, id) <==> !Unhindered(s, t, id, w);
  }

  /**
   * In every reachable state an automatic insert succeeds if and only if no other open transaction has raised
   * the workspace's counter or deals with the identifier, the identifier is free, and the counter is below
   * 2147483647. The row gets the next number, and the counter is that number.
   */
  lemma AutomaticInsertExactly(s: State, t: TxId, id: CaseId, w: WorkspaceId, seen: int)
    requires Reachable(s) && t in s.open && w in s.counters
    requires seen == if w in s.open[t].raised then s.open[t].raised[w] else s.counters[w]
    ensures InsertCase(s, t, id, w, None).Done? <==>
            Unhindered(s, t, id, w) && IdIsFree(s, t, id) && seen < 2147483647
    ensures InsertCase(s, t, id, w, None).Done? ==>
              Inserted(s, InsertCase(s, t, id, w, None).next, t, id, w, seen + 1, seen + 1)
  {
    assert InsertCase(s, t, id, w, None).Done? <==>
           Unhindered(s, t, id, w) && IdIsFree(s, t, id) && seen < 2147483647 by {
      ReachableFacts(s);
      AutomaticSucceeds(s, t, id, w, seen);
    }
    if InsertCase(s, t, id, w, None).Done? {
      InsertShape(s, t, id, w, None, seen + 1, seen + 1);
    }
  }

  lemma AutomaticSucceeds(s: State, t: TxId, id: CaseId, w: WorkspaceId, seen: int)
    requires Inv(s) && CountersNatural(s) && t in s.open && w in s.counters && seen == Seen(s, t, w)
    ensures InsertCase(s, t, id, w, None).Done? <==>
            Unhindered(s, t, id, w) && IdIsFree(s, t, id) && seen < 2147483647
  {
    InsertExactly(s, t, id, w, None, seen + 1);
    NextIsStorable(s, t, w, seen);
  }

  lemma InsertShape(s: State, t: TxId, id: CaseId, w: WorkspaceId, number: Option<int>, counter: int, n: int)
    requires InsertCase(s, t, id, w, number).Done? && (counter, n) == Assign(Seen(s, t, w), number)
    ensures Inserted(s, InsertCase(s, t, id, w, number).next, t, id, w, n, counter)
  {
    var _, _ := InsertDone(s, t, id, w, number);
  }

  lemma NextIsStorable(s: State, t: TxId, w: WorkspaceId, seen: int)
    requires Inv(s) && CountersNatural(s) && t in s.open && w in s.counters && seen == Seen(s, t, w)
    ensures Storable(s, t, w, seen + 1) <==> seen < 2147483647
  {
    AutomaticNumberIsFree(s, t, w);
    AutomaticNumberIsDecided(s, t, w);
    NumberIsFreeExactly(s, t, w, seen + 1);
    assert TxBounded(s.counters, s.open[t]);
  }

  lemma AutomaticNumberIsDecided(s: State, t: TxId, w: WorkspaceId)
    requires Bounded(s) && t in s.open && w in s.counters
    ensures !Undecided(s, t, w, Seen(s, t, w) + 1)
  {
    assert TxBounded(s.counters, s.open[t]);
    forall other | other in s.cases ensures s.cases[other] != Case(w, Seen(s, t, w) + 1) {
      assert (s.cases[other].ws, s.cases[other].number) in s.ever;
    }
  }

  /**
   * In every reachable state an insert with an explicit number succeeds if and only if nobody is in the way,
   * the identifier is free and the number can be stored. The row keeps the number, and the counter becomes
   * the larger of the two.
   */
  lemma ExplicitInsertExactly(s: State, t: TxId, id: CaseId, w: WorkspaceId, seen: int, n: int)
    requires Reachable(s) && t in s.open && w in s.counters
    requires seen == if w in s.open[t].raised then s.open[t].raised[w] else s.counters[w]
    ensures InsertCase(s, t, id, w, Some(n)).Done? <==>
            Unhindered(s, t, id, w) && IdIsFree(s, t, id) && Storable(s, t, w, n)
    ensures InsertCase(s, t, id, w, Some(n)).Done? ==>
              exists counter :: Inserted(s, InsertCase(s, t, id, w, Some(n)).next, t, id, w, n, counter) &&
                                counter >= n && counter >= seen && (counter == n || counter == seen)
  {
    ReachableFacts(s);
    InsertExactly(s, t, id, w, Some(n), n);
    if InsertCase(s, t, id, w, Some(n)).Done? {
      InsertShape(s, t, id, w, Some(n), if seen >= n then seen else n, n);
    }
  }

  /** Only other open transactions make an insertion or a deletion wait; the last one open never does. */
  lemma AloneNeverWaits(s: State, t: TxId, step: Step)
    requires forall u :: u in s.open ==> u == t
    requires step.Insert? || step.Delete? ==> step.t == t
    ensures Apply(s, step) != Blocked
  {}

  /** The transaction no longer holds the row, and everything else it holds is as before. */
  ghost predicate Removed(tx: Tx, tx': Tx, id: CaseId) {
    && id !in tx'.inserted && tx'.raised == tx.raised && tx'.inserted == tx.inserted - {id}
    && tx'.deleted - {id} == tx.deleted - {id}
  }

  lemma DeleteSucceeds(s: State, t: TxId, id: CaseId)
    requires t in s.open
    ensures DeleteCase(s, t, id).Done? <==>
            id in s.open[t].inserted ||
            (id in s.cases && id !in s.open[t].deleted && forall u :: u in s.open && u != t ==> id !in s.open[u].deleted)
  {}

  lemma DeleteRemoves(s: State, t: TxId, id: CaseId, tx: Tx)
    requires t in s.open && TxDistinct(s.cases, s.open[t]) && DeleteCase(s, t, id) == Done(WithTx(s, t, tx))
    ensures Removed(s.open[t], tx, id) && (id in s.cases ==> id in tx.deleted)
  {
    var before := s.open[t];
    assert tx == WithTx(s, t, tx).open[t];
    if id in before.inserted {
      assert tx == before.(inserted := before.inserted - {id});
    } else {
      assert tx == before.(deleted := before.deleted + {id});
      assert before.inserted - {id} == before.inserted;
    }
  }

  lemma RemovedIsGone(cases: Cases, tx: Tx, tx': Tx, id: CaseId)
    requires Removed(tx, tx', id) && (id in cases ==> id in tx'.deleted)
    ensures (cases - tx'.deleted) + tx'.inserted == ((cases - tx.deleted) + tx.inserted) - {id}
  {
    forall other | other != id ensures other in tx'.deleted <==> other in tx.deleted {
      assert other in tx'.deleted - {id} <==> other in tx.deleted - {id};
    }
  }

  /**
   * In every reachable state a deletion succeeds if and only if the transaction sees the row and no other one
   * is deleting it. Once it commits the row is gone, and every other row is as it would have been without.
   */
  lemma DeleteExactly(s: State, t: TxId, id: CaseId)
    requires Reachable(s) && t in s.open
    ensures DeleteCase(s, t, id).Done? <==>
            id in s.open[t].inserted ||
            (id in s.cases && id !in s.open[t].deleted && forall u :: u in s.open && u != t ==> id !in s.open[u].deleted)
    ensures DeleteCase(s, t, id).Done? ==>
              var next := DeleteCase(s, t, id).next;
              && t in next.open && next == s.(open := s.open[t := next.open[t]])
              && Removed(s.open[t], next.open[t], id)
              && Committed(next, t).cases == Committed(s, t).cases - {id}
  {
    ReachableFacts(s);
    DeleteSucceeds(s, t, id);
    if DeleteCase(s, t, id).Done? {
      var tx := DeleteDone(s, t, id);
      assert TxDistinct(s.cases, s.open[t]);
      DeleteRemoves(s, t, id, tx);
      RemovedIsGone(s.cases, s.open[t], tx, id);
    }
  }

  /** The other open transactions are as they were. */
  ghost predicate OthersStay(s: State, r: State, t: TxId) {
    forall u :: u != t ==> (u in r.open <==> u in s.open) && (u in s.open ==> r.open[u] == s.open[u])
  }

  /**
   * Committing makes the transaction's rows and counters the committed ones: its insertions come on top of the
   * rows that it has not deleted.
   */
  lemma CommitExactly(s: State, t: TxId)
    requires t in s.open
    ensures Apply(s, Commit(t)).Done?
    ensures var tx, r := s.open[t], Apply(s, Commit(t)).next;
            && t !in r.open && OthersStay(s, r, t)
            && (forall id :: id in r.cases <==> id in tx.inserted || (id in s.cases && id !in tx.deleted))
            && (forall id :: id in r.cases ==> r.cases[id] == if id in tx.inserted then tx.inserted[id] else s.cases[id])
            && (forall w :: w in r.counters <==> w in tx.raised || w in s.counters)
            && (forall w :: w in r.counters ==>
                  r.counters[w] == if w in tx.raised then tx.raised[w] else s.counters[w])
  {}

  /**
   * Aborting, beginning, and any statement that waits or fails leave the committed rows and counters alone; a
   * transaction begins with nothing, and one that is aborted is forgotten.
   */
  lemma TablesStay(s: State, t: TxId, step: Step)
    ensures (Abort(t) == step && t in s.open) || (Begin(t) == step && t !in s.open) ==>
              && Next(s, step).cases == s.cases && Next(s, step).counters == s.counters
              && OthersStay(s, Next(s, step), t)
    ensures Abort(t) == step ==> t !in Next(s, step).open
    ensures Begin(t) == step && t !in s.open ==> t in Next(s, step).open && Next(s, step).open[t] == Tx(map[], map[], {})
    ensures !Apply(s, step).Done? ==> Next(s, step) == s
  {}

  // ---------------------------------------------------------------- the tables themselves

  datatype Status = Success | Waiting | Error(why: Failure)

  function StatusOf(outcome: Outcome): Status {
    match outcome
    case Done(_) => Success
    case Blocked => Waiting
    case Failed(why) => Error(why)
  }

  /** The `workspace` and `case` tables, updated in place by the migration and by transactions. */
  class CaseStore {
    var counters: Counters
    var cases: Cases
    var open: map<TxId, Tx>
    ghost var ever: set<(WorkspaceId, int)>

    ghost function Tables(): State
      reads this
    {
      State(counters, cases, open, ever)
    }

    constructor (workspaces: set<WorkspaceId>, cases: Cases)
      ensures this.counters == (map w | w in workspaces :: 0) && this.cases == cases && open == map[]
    {
      this.counters := map w | w in workspaces :: 0;
      this.cases := cases;
      this.open, this.ever := map[], {};
    }

    /** The renumbering statement, then the counter statement, one workspace at a time. */
    method Upgrade()
      modifies this
      ensures cases == Renumbered(old(cases)) && open == old(open)
      ensures counters == Initialised(old(counters), cases)
      ensures ever == History(cases)
    {
      cases := Renumbered(cases);
      ever := History(cases);
      var todo := counters.Keys;
      while todo != {}
        invariant todo <= counters.Keys == old(counters).Keys
        invariant cases == Renumbered(old(cases)) && open == old(open) && ever == History(cases)
        invariant forall w :: w in counters ==>
                    counters[w] == if w in todo then old(counters)[w] else Initialised(old(counters), cases)[w]
      {
        var w :| w in todo;
        var ids := InWorkspace(cases, w);
        if ids != {} {
          var m := LargestNumber(cases, ids);
          TopIsLargest(cases, w, m);
          counters := counters[w := m];
        }
        todo := todo - {w};
      }
    }

    /** The trigger function: the raised counter, and the number of the new row. */
    static method Allocate(seen: int, number: Option<int>) returns (counter: int, n: int)
      ensures (counter, n) == Assign(seen, number)
    {
      counter := seen;
      if number == None {
        counter := counter + 1;
        n := counter;
      } else {
        n := number.value;
        counter := if counter >= n then counter else n;
      }
    }

    /** An insertion: the trigger allocates or raises the counter, then the indexes are checked. */
    method Insert(t: TxId, id: CaseId, w: WorkspaceId, number: Option<int>) returns (status: Status)
      modifies this`open
      ensures status == StatusOf(InsertCase(old(Tables()), t, id, w, number))
      ensures Tables() == Next(old(Tables()), Step.Insert(t, id, w, number))
    {
      ghost var s := Tables();
      if t !in open {
        return Error(NoTransaction);
      }
      if w !in counters {
        return Error(NoSuchWorkspace);
      }
      if exists u :: u in open && u != t && w in open[u].raised {
        return Waiting;
      }
      var tx := open[t];
      var counter, n := Allocate(if w in tx.raised then tx.raised[w] else counters[w], number);
      if !IsInteger(n) {
        return Error(OutOfRange);
      }
      var rival := Rival(t, id, w, n);
      if rival != Success {
        return rival;
      }
      open := open[t := Tx(tx.raised[w := counter], tx.inserted[id := Case(w, n)], tx.deleted)];
      return Success;
    }

    /** The primary key and the unique index on (workspace, number). */
    method Rival(t: TxId, id: CaseId, w: WorkspaceId, n: int) returns (status: Status)
      requires t in open
      ensures status ==
              if id in open[t].inserted || (HasRow(Tables(), t, id) && !DeletedByOther(Tables(), t, id))
              then Error(DuplicateId)
              else if InsertedByOther(Tables(), t, id) || DeletedByOther(Tables(), t, id) then Waiting
              else if Taken(Tables(), t, w, n) then Error(DuplicateNumber)
              else if Undecided(Tables(), t, w, n) then Waiting
              else Success
    {
      var s := State(counters, cases, open, {});
      if id in open[t].inserted || (HasRow(s, t, id) && !DeletedByOther(s, t, id)) {
        return Error(DuplicateId);
      }
      if InsertedByOther(s, t, id) || DeletedByOther(s, t, id) {
        return Waiting;
      }
      if Taken(s, t, w, n) {
        return Error(DuplicateNumber);
      }
      return if Undecided(s, t, w, n) then Waiting else Success;
    }

    method AddWorkspace(w: WorkspaceId) returns (status: Status)
      modifies this`counters
      ensures status == StatusOf(Apply(old(Tables()), NewWorkspace(w)))
      ensures Tables() == Next(old(Tables()), NewWorkspace(w))
    {
      if w in counters {
        return Error(DuplicateId);
      }
      counters := counters[w := 0];
      return Success;
    }

    method Begin(t: TxId) returns (status: Status)
      modifies this`open
      ensures status == StatusOf(Apply(old(Tables()), Step.Begin(t)))
      ensures Tables() == Next(old(Tables()), Step.Begin(t))
    {
      if t in open {
        return Error(NoTransaction);
      }
      open := open[t := Tx(map[], map[], {})];
      return Success;
    }

    /** A deletion takes no number back: the counter stays where it is. */
    method Delete(t: TxId, id: CaseId) returns (status: Status)
      modifies this`open
      ensures status == StatusOf(DeleteCase(old(Tables()), t, id))
      ensures Tables() == Next(old(Tables()), Step.Delete(t, id))
    {
      if t !in open {
        return Error(NoTransaction);
      }
      var tx := open[t];
      if id in tx.inserted {
        open := open[t := tx.(inserted := tx.inserted - {id})];
        return Success;
      }
      if id !in cases || id in tx.deleted {
        return Error(NoSuchCase);
      }
      if exists u :: u in open && u != t && id in open[u].deleted {
        return Waiting;
      }
      open := open[t := tx.(deleted := tx.deleted + {id})];
      return Success;
    }

    method Commit(t: TxId) returns (status: Status)
      modifies this
      ensures status == StatusOf(Apply(old(Tables()), Step.Commit(t)))
      ensures Tables() == Next(old(Tables()), Step.Commit(t))
    {
      if t !in open {
        return Error(NoTransaction);
      }
      var tx := open[t];
      counters := counters + tx.raised;
      cases := (cases - tx.deleted) + tx.inserted;
      ever := ever + History(tx.inserted);
      open := open - {t};
      return Success;
    }

    method Abort(t: TxId) returns (status: Status)
      modifies this`open
      ensures status == StatusOf(Apply(old(Tables()), Step.Abort(t)))
      ensures Tables() == Next(old(Tables()), Step.Abort(t))
    {
      if t !in open {
        return Error(NoTransaction);
      }
      open := open - {t};
      return Success;
    }
  }

  method LargestNumber(cases: Cases, ids: set<CaseId>) returns (m: int)
    requires ids != {} && ids <= cases.Keys
    ensures exists top :: IsTop(cases, ids, top) && m == cases[top].number
  {
    var top :| top in ids;
    var todo := ids - {top};
    while todo != {}
      invariant todo <= ids
      invariant IsTop(cases, ids - todo, top)
      decreases |todo|
    {
      var id :| id in todo;
      if cases[id].number > cases[top].number {
        top := id;
      }
      todo := todo - {id};
    }
    assert ids - todo == ids;
    m := cases[top].number;
  }

  lemma TopIsLargest(cases: Cases, w: WorkspaceId, m: int)
    requires exists top :: IsTop(cases, InWorkspace(cases, w), top) && m == cases[top].number
    ensures InWorkspace(cases, w) != {} && m == TopNumber(cases, w)
  {
    var top :| IsTop(cases, InWorkspace(cases, w), top) && m == cases[top].number;
    assert m in Numbers(cases, w);
    var k := TopNumber(cases, w);
    var other :| other in InWorkspace(cases, w) && cases[other].number == k;
  }
}
