/** One-shot CAS tickets: a table of hashed tickets, and validation that reads a row, judges it, and then marks it
    consumed, with no lock between. */
module CasTickets {
  import opened Text

  datatype TicketType = ServiceTicket | TicketGrantingTicket

  datatype Row = Row(id: string, ticketHash: string, ticketType: TicketType, userId: string, tenantId: string,
                     service: string, consumedAt: Option<int>, expiresAt: int, createdAt: int)

  datatype ValidatedTicket = ValidatedTicket(userId: string, tenantId: string)

  type Hash = string -> string

  ghost predicate Injective(sha: Hash) {
    forall x, y :: sha(x) == sha(y) ==> x == y
  }

  // ---------------------------------------------------------------------
  // The table: "id" is primary, "ticketHash" is unique
  // ---------------------------------------------------------------------

  function Insert(rows: seq<Row>, row: Row): Option<seq<Row>> {
    if exists i :: 0 <= i < |rows| && (rows[i].id == row.id || rows[i].ticketHash == row.ticketHash) then None
    else Some(rows + [row])
  }

  /** The first row with that hash. */
  function FindRow(rows: seq<Row>, hash: string): (r: Option<Row>)
    ensures r.Some? ==> r.value in rows && r.value.ticketHash == hash
    ensures r.None? ==> forall i :: 0 <= i < |rows| ==> rows[i].ticketHash != hash
  {
    if rows == [] then None
    else if rows[0].ticketHash == hash then Some(rows[0])
    else FindRow(rows[1..], hash)
  }

  function Consume(rows: seq<Row>, id: string, at: int): (r: seq<Row>)
    ensures |r| == |rows|
  {
    seq(|rows|, i requires 0 <= i < |rows| =>
      if rows[i].id == id then rows[i].(consumedAt := Some(at)) else rows[i])
  }

  // ---------------------------------------------------------------------
  // Issuing and validating
  // ---------------------------------------------------------------------

  function TicketPrefix(kind: TicketType): string {
    if kind == TicketGrantingTicket then "TGT-" else "ST-"
  }

  /** What an issue is given, what the generator and the clock supply, and whether the insert call goes through. */
  datatype IssueCall = IssueCall(kind: TicketType, userId: string, tenantId: string, service: string, ttl: int,
                                 token: string, id: string, now: int, later: int, up: bool)

  function RawTicket(call: IssueCall): string {
    TicketPrefix(call.kind) + call.token
  }

  function NewRow(sha: Hash, call: IssueCall): Row {
    Row(call.id, sha(RawTicket(call)), call.kind, call.userId, call.tenantId, call.service, None,
        call.now + call.ttl, call.later)
  }

  function AfterIssue(sha: Hash, rows: seq<Row>, call: IssueCall): (seq<Row>, Result<string>) {
    var inserted := if call.up then Insert(rows, NewRow(sha, call)) else None;
    match inserted
    case None => (rows, Err)
    case Some(rows') => (rows', Ok(RawTicket(call)))
  }

  /** Judging a row already read, and consuming it. */
  function AfterFinish(rows: seq<Row>, row: Row, service: string, now: int, later: int, up: bool)
    : (seq<Row>, Result<ValidatedTicket>)
  {
    if row.consumedAt.Some? || row.expiresAt <= now || row.service != service then (rows, Err)
    else if !up then (rows, Err)
    else (Consume(rows, row.id, later), Ok(ValidatedTicket(row.userId, row.tenantId)))
  }

  /** Validation without interruption. */
  function AfterValidate(sha: Hash, rows: seq<Row>, raw: string, service: string, listed: bool, now: int, later: int,
                         up: bool): (seq<Row>, Result<ValidatedTicket>)
  {
    var found := if listed then FindRow(rows, sha(raw)) else None;
    match found
    case None => (rows, Err)
    case Some(row) => AfterFinish(rows, row, service, now, later, up)
  }

  class CasTicketStore {
    const sha: Hash
    var rows: seq<Row>

    constructor (sha: Hash)
      ensures this.sha == sha && rows == []
    {
      this.sha := sha;
      rows := [];
    }

    method Issue(call: IssueCall) returns (r: Result<string>)
      modifies this
      ensures (rows, r) == AfterIssue(sha, old(rows), call)
    {
      var rawTicket := TicketPrefix(call.kind) + call.token;
      var ticketHash := sha(rawTicket);
      var data := Row(call.id, ticketHash, call.kind, call.userId, call.tenantId, call.service, None,
                      call.now + call.ttl, call.later);
      var inserted := if call.up then Insert(rows, data) else None;
      if inserted.None? { return Err; }
      rows := inserted.value;
      return Ok(rawTicket);
    }

    /** `listed` and `up` say whether the list and the update call go through; `now` and `later` are the clock at
        the expiry check and at the consumption. */
    method ValidateServiceTicket(rawTicket: string, service: string, listed: bool, now: int, later: int, up: bool)
      returns (r: Result<ValidatedTicket>)
      modifies this
      ensures (rows, r) == AfterValidate(sha, old(rows), rawTicket, service, listed, now, later, up)
    {
      var ticketHash := sha(rawTicket);
      if !listed { return Err; }
      var found := FindRow(rows, ticketHash);
      if found.None? { return Err; }
      var row := found.value;
      if row.consumedAt.Some? { return Err; }
      if row.expiresAt <= now { return Err; }
      if row.service != service { return Err; }
      if !up { return Err; }
      rows := Consume(rows, row.id, later);
      return Ok(ValidatedTicket(row.userId, row.tenantId));
    }
  }

  // ---------------------------------------------------------------------
  // Interleavings: a validation is a read and, any time later, a finish
  // ---------------------------------------------------------------------

  datatype Step =
    | Issue(call: IssueCall)
    | Read(who: nat, raw: string, service: string, listed: bool)
    | Finish(who: nat, now: int, later: int, up: bool)

  /** A validation that has read its row: the step it read at is history, used only to state what holds. */
  datatype Pending = Pending(raw: string, service: string, row: Row, readAt: nat)

  datatype State = State(rows: seq<Row>, pending: map<nat, Pending>)

  function AfterStep(sha: Hash, s: State, step: Step, at: nat): State {
    match step
    case Issue(call) => s.(rows := AfterIssue(sha, s.rows, call).0)
    case Read(who, raw, service, listed) =>
      var found := if listed then FindRow(s.rows, sha(raw)) else None;
      if found.None? then s.(pending := s.pending - {who})
      else s.(pending := s.pending[who := Pending(raw, service, found.value, at)])
    case Finish(who, now, later, up) =>
      if who !in s.pending then s
      else
        var p := s.pending[who];
        State(AfterFinish(s.rows, p.row, p.service, now, later, up).0, s.pending - {who})
  }

  /** The state before step `n`. */
  function StateAt(sha: Hash, steps: seq<Step>, n: nat): State
    requires n <= |steps|
    decreases n
  {
    if n == 0 then State([], map[]) else AfterStep(sha, StateAt(sha, steps, n - 1), steps[n - 1], n - 1)
  }

  /** Step `j` finishes a validation successfully. */
  predicate Succeeds(sha: Hash, steps: seq<Step>, j: nat) {
    && j < |steps|
    && steps[j].Finish?
    && steps[j].who in StateAt(sha, steps, j).pending
    && var p := StateAt(sha, steps, j).pending[steps[j].who];
       AfterFinish(StateAt(sha, steps, j).rows, p.row, p.service, steps[j].now, steps[j].later, steps[j].up).1.Ok?
  }

  /** The validation that step `j` finishes. */
  function Validation(sha: Hash, steps: seq<Step>, j: nat): Pending
    requires Succeeds(sha, steps, j)
  {
    StateAt(sha, steps, j).pending[steps[j].who]
  }

  function Answer(sha: Hash, steps: seq<Step>, j: nat): ValidatedTicket
    requires Succeeds(sha, steps, j)
  {
    var p := Validation(sha, steps, j);
    AfterFinish(StateAt(sha, steps, j).rows, p.row, p.service, steps[j].now, steps[j].later, steps[j].up).1.value
  }

  /** A read followed at once by its finish is the uninterrupted validation. */
  lemma ReadThenFinishIsValidate(sha: Hash, s: State, who: nat, raw: string, service: string, listed: bool, now: int,
                                 later: int, up: bool, at: nat)
    ensures
      AfterStep(sha, AfterStep(sha, s, Read(who, raw, service, listed), at), Finish(who, now, later, up), at + 1)
      == State(AfterValidate(sha, s.rows, raw, service, listed, now, later, up).0, s.pending - {who})
  {
    var found := if listed then FindRow(s.rows, sha(raw)) else None;
    if found.Some? {
      assert s.pending[who := Pending(raw, service, found.value, at)] - {who} == s.pending - {who};
    }
  }

  // ---------------------------------------------------------------------
  // Invariants of every interleaving
  // ---------------------------------------------------------------------

  ghost predicate DistinctRows(rows: seq<Row>) {
    forall i, j :: 0 <= i < j < |rows| ==> rows[i].id != rows[j].id && rows[i].ticketHash != rows[j].ticketHash
  }

  /** Rows are only added, only "consumedAt" changes, and what is consumed stays consumed. */
  ghost predicate Grows(a: seq<Row>, b: seq<Row>) {
    && |a| <= |b|
    && forall i {:trigger a[i]} {:trigger b[i]} :: 0 <= i < |a| ==> Ages(a[i], b[i])
  }

  predicate Ages(a: Row, b: Row) {
    b.(consumedAt := None) == a.(consumedAt := None) && (a.consumedAt.Some? ==> b.consumedAt.Some?)
  }

  lemma StepGrows(sha: Hash, s: State, step: Step, at: nat)
    requires DistinctRows(s.rows)
    ensures Grows(s.rows, AfterStep(sha, s, step, at).rows)
    ensures DistinctRows(AfterStep(sha, s, step, at).rows)
  {
    var rows := AfterStep(sha, s, step, at).rows;
    match step
    case Issue(call) =>
    case Read(_, _, _, _) =>
    case Finish(who, now, later, up) =>
      assert forall i :: 0 <= i < |rows| ==> rows[i].id == s.rows[i].id && rows[i].ticketHash == s.rows[i].ticketHash;
  }

  lemma {:induction false} RowsGrow(sha: Hash, steps: seq<Step>, m: nat, n: nat)
    requires m <= n <= |steps|
    ensures DistinctRows(StateAt(sha, steps, n).rows)
    ensures Grows(StateAt(sha, steps, m).rows, StateAt(sha, steps, n).rows)
    decreases n
  {
    hide AfterStep;
    if n > 0 {
      RowsGrow(sha, steps, if m < n then m else n - 1, n - 1);
      StepGrows(sha, StateAt(sha, steps, n - 1), steps[n - 1], n - 1);
    }
  }

  /** What a validation holds is what it read, when it read it. */
  ghost predicate ReadThere(sha: Hash, steps: seq<Step>, who: nat, p: Pending) {
    && p.readAt < |steps|
    && steps[p.readAt] == Read(who, p.raw, p.service, true)
    && FindRow(StateAt(sha, steps, p.readAt).rows, sha(p.raw)) == Some(p.row)
  }

  lemma {:induction false} PendingWasRead(sha: Hash, steps: seq<Step>, n: nat, who: nat)
    requires n <= |steps| && who in StateAt(sha, steps, n).pending
    ensures StateAt(sha, steps, n).pending[who].readAt < n
    ensures ReadThere(sha, steps, who, StateAt(sha, steps, n).pending[who])
    decreases n
  {
    hide AfterIssue, AfterFinish;
    if n > 0 && who in StateAt(sha, steps, n - 1).pending { PendingWasRead(sha, steps, n - 1, who); }
  }

  /** The issue a row comes from. */
  ghost predicate ComesFrom(sha: Hash, steps: seq<Step>, e: nat, row: Row) {
    && e < |steps|
    && steps[e].Issue?
    && AfterIssue(sha, StateAt(sha, steps, e).rows, steps[e].call).1.Ok?
    && row.(consumedAt := None) == NewRow(sha, steps[e].call)
  }

  lemma {:induction false} RowsWereIssued(sha: Hash, steps: seq<Step>, n: nat, i: nat) returns (e: nat)
    requires n <= |steps| && i < |StateAt(sha, steps, n).rows|
    ensures e < n && ComesFrom(sha, steps, e, StateAt(sha, steps, n).rows[i])
    decreases n
  {
    var before := StateAt(sha, steps, n - 1);
    if i < |before.rows| {
      RowsGrow(sha, steps, n - 1, n);
      e := RowsWereIssued(sha, steps, n - 1, i);
    } else {
      e := n - 1;
    }
  }

  // ---------------------------------------------------------------------
  // The theorems
  // ---------------------------------------------------------------------

  /** Issuing succeeds exactly when the insert call goes through and neither the id nor the ticket's hash is taken. The
      ticket says its kind; its row, added at the end, keeps its hash and not the ticket, unconsumed, for the ticket's
      time to live. */
  lemma IssueMeaning(sha: Hash, rows: seq<Row>, call: IssueCall)
    ensures
      var (rows', r) := AfterIssue(sha, rows, call);
      var raw := (match call.kind case ServiceTicket => "ST-" case TicketGrantingTicket => "TGT-") + call.token;
      && (r.Ok? <==> call.up && forall i :: 0 <= i < |rows| ==> rows[i].id != call.id && rows[i].ticketHash != sha(raw))
      && (r.Err? ==> rows' == rows)
      && (r.Ok? ==>
            && r.value == raw
            && rows' == rows + [Row(call.id, sha(raw), call.kind, call.userId, call.tenantId, call.service, None,
                                    call.now + call.ttl, call.later)])
  {
  }

  /** A validation changes nothing unless it succeeds; then it marks the row it found, at its second clock reading, and
      no other row. */
  lemma SuccessMarksItsRow(sha: Hash, rows: seq<Row>, raw: string, service: string, listed: bool, now: int, later: int, up: bool)
    requires DistinctRows(rows)
    ensures
      var (rows', r) := AfterValidate(sha, rows, raw, service, listed, now, later, up);
      && |rows'| == |rows|
      && forall i :: 0 <= i < |rows| ==>
           rows'[i] == if r.Ok? && rows[i].ticketHash == sha(raw) then rows[i].(consumedAt := Some(later)) else rows[i]
  {
    var found := FindRow(rows, sha(raw));
    if found.Some? {
      var k :| 0 <= k < |rows| && rows[k] == found.value;
      assert forall i :: 0 <= i < |rows| && i != k ==> rows[i].id != rows[k].id && rows[i].ticketHash != rows[k].ticketHash;
    }
  }

  /** Every success is for a ticket issued before it was read, for the service it was issued for, before it expired,
      and answers the user and tenant it was issued to. */
  lemma SuccessIsGenuine(sha: Hash, steps: seq<Step>, j: nat) returns (e: nat)
    requires Injective(sha) && Succeeds(sha, steps, j)
    ensures
      var p := Validation(sha, steps, j);
      && e < p.readAt < j
      && steps[e].Issue?
      && var call := steps[e].call;
         && AfterIssue(sha, StateAt(sha, steps, e).rows, call).1 == Ok(p.raw)
         && call.service == p.service
         && steps[j].now < call.now + call.ttl
         && Answer(sha, steps, j) == ValidatedTicket(call.userId, call.tenantId)
  {
    var p := Validation(sha, steps, j);
    PendingWasRead(sha, steps, j, steps[j].who);
    var rows := StateAt(sha, steps, p.readAt).rows;
    var i :| 0 <= i < |rows| && rows[i] == p.row;
    e := RowsWereIssued(sha, steps, p.readAt, i);
    assert p.row.ticketHash == sha(p.raw) == sha(RawTicket(steps[e].call));
  }

  /** Once a validation has succeeded, the row of its ticket is consumed, and stays so. */
  lemma SuccessConsumes(sha: Hash, steps: seq<Step>, k: nat, n: nat) returns (i: nat)
    requires Succeeds(sha, steps, k) && k < n <= |steps|
    ensures i < |StateAt(sha, steps, n).rows|
    ensures StateAt(sha, steps, n).rows[i].ticketHash == sha(Validation(sha, steps, k).raw)
    ensures StateAt(sha, steps, n).rows[i].consumedAt.Some?
  {
    var p := Validation(sha, steps, k);
    PendingWasRead(sha, steps, k, steps[k].who);
    var rows := StateAt(sha, steps, p.readAt).rows;
    i :| 0 <= i < |rows| && rows[i] == p.row;
    RowsGrow(sha, steps, p.readAt, k);
    assert Ages(rows[i], StateAt(sha, steps, k).rows[i]);
    RowsGrow(sha, steps, k + 1, n);
    assert Ages(StateAt(sha, steps, k + 1).rows[i], StateAt(sha, steps, n).rows[i]);
  }

  lemma {:induction false} FindRowIsThatRow(rows: seq<Row>, i: nat, hash: string)
    requires i < |rows| && DistinctRows(rows) && rows[i].ticketHash == hash
    ensures FindRow(rows, hash) == Some(rows[i])
    decreases i
  {
    if i > 0 { FindRowIsThatRow(rows[1..], i - 1, hash); }
  }

  /** In any interleaving, of two successes for one ticket each read the row before the other consumed it: in
      particular every success read it before the first consumption. */
  lemma SuccessReadBeforeConsumption(sha: Hash, steps: seq<Step>, j: nat, k: nat)
    requires Succeeds(sha, steps, j) && Succeeds(sha, steps, k)
    requires Validation(sha, steps, j).raw == Validation(sha, steps, k).raw
    ensures Validation(sha, steps, j).readAt < k
  {
    var p := Validation(sha, steps, j);
    PendingWasRead(sha, steps, j, steps[j].who);
    if p.readAt > k {
      var i := SuccessConsumes(sha, steps, k, p.readAt);
      RowsGrow(sha, steps, p.readAt, p.readAt);
      FindRowIsThatRow(StateAt(sha, steps, p.readAt).rows, i, sha(p.raw));
    }
  }

  /** Only a successful finish consumes a row: the one it read. */
  lemma StepConsumes(sha: Hash, s: State, step: Step, at: nat, i: nat)
    requires i < |AfterStep(sha, s, step, at).rows| && AfterStep(sha, s, step, at).rows[i].consumedAt.Some?
    requires i < |s.rows| ==> s.rows[i].consumedAt.None?
    ensures step.Finish? && step.who in s.pending && i < |s.rows|
    ensures
      var p := s.pending[step.who];
      AfterFinish(s.rows, p.row, p.service, step.now, step.later, step.up).1.Ok? && s.rows[i].id == p.row.id
    ensures AfterStep(sha, s, step, at).rows[i].ticketHash == s.rows[i].ticketHash
  {
  }

  /** A consumed row was consumed by a success for its ticket. */
  lemma {:induction false} ConsumedBySuccess(sha: Hash, steps: seq<Step>, n: nat, i: nat) returns (k: nat)
    requires n <= |steps| && i < |StateAt(sha, steps, n).rows|
    requires StateAt(sha, steps, n).rows[i].consumedAt.Some?
    ensures k < n && Succeeds(sha, steps, k)
    ensures sha(Validation(sha, steps, k).raw) == StateAt(sha, steps, n).rows[i].ticketHash
    decreases n
  {
    hide AfterStep, AfterFinish, FindRow;
    var before := StateAt(sha, steps, n - 1);
    RowsGrow(sha, steps, n - 1, n);
    if i < |before.rows| && before.rows[i].consumedAt.Some? {
      k := ConsumedBySuccess(sha, steps, n - 1, i);
    } else {
      k := n - 1;
      StepConsumes(sha, before, steps[k], k, i);
      PendingWasRead(sha, steps, k, steps[k].who);
      var p := Validation(sha, steps, k);
      RowsGrow(sha, steps, p.readAt, k);
      var rows := StateAt(sha, steps, p.readAt).rows;
      var m :| 0 <= m < |rows| && rows[m] == p.row;
      assert Ages(rows[m], before.rows[m]);
      assert m == i;
    }
  }

  /** The row of an issued ticket is the one every later read of that ticket finds. */
  lemma IssuedIsFound(sha: Hash, steps: seq<Step>, e: nat, n: nat, raw: string)
    requires e < n <= |steps| && steps[e].Issue?
    requires AfterIssue(sha, StateAt(sha, steps, e).rows, steps[e].call).1 == Ok(raw)
    ensures
      var found := FindRow(StateAt(sha, steps, n).rows, sha(raw));
      found.Some? && found.value.(consumedAt := None) == NewRow(sha, steps[e].call)
  {
    var i := |StateAt(sha, steps, e).rows|;
    RowsGrow(sha, steps, e + 1, n);
    assert Ages(StateAt(sha, steps, e + 1).rows[i], StateAt(sha, steps, n).rows[i]);
    FindRowIsThatRow(StateAt(sha, steps, n).rows, i, sha(raw));
  }

  /** A validation of an issued ticket succeeds if and only if its update goes through, the ticket has not expired,
      the service is the one it was issued for, and no validation of it had succeeded when the row was read. */
  lemma SucceedsExactlyWhen(sha: Hash, steps: seq<Step>, j: nat, e: nat)
    requires Injective(sha)
    requires j < |steps| && steps[j].Finish? && steps[j].who in StateAt(sha, steps, j).pending
    requires
      var p := StateAt(sha, steps, j).pending[steps[j].who];
      && e < p.readAt && e < |steps| && steps[e].Issue?
      && AfterIssue(sha, StateAt(sha, steps, e).rows, steps[e].call).1 == Ok(p.raw)
    ensures
      var p, call := StateAt(sha, steps, j).pending[steps[j].who], steps[e].call;
      Succeeds(sha, steps, j) <==>
      && steps[j].up && steps[j].now < call.now + call.ttl && p.service == call.service
      && forall k {:trigger Succeeds(sha, steps, k)} ::
           0 <= k < p.readAt && Succeeds(sha, steps, k) ==> Validation(sha, steps, k).raw != p.raw
  {
    var p := StateAt(sha, steps, j).pending[steps[j].who];
    PendingWasRead(sha, steps, j, steps[j].who);
    IssuedIsFound(sha, steps, e, p.readAt, p.raw);
    var rows := StateAt(sha, steps, p.readAt).rows;
    var i :| 0 <= i < |rows| && rows[i] == p.row;
    if p.row.consumedAt.Some? {
      var k := ConsumedBySuccess(sha, steps, p.readAt, i);
      assert Validation(sha, steps, k).raw == p.raw;
    }
    forall k | 0 <= k < p.readAt && Succeeds(sha, steps, k) && Validation(sha, steps, k).raw == p.raw
      ensures !Succeeds(sha, steps, j)
    {
      if Succeeds(sha, steps, j) { SuccessReadBeforeConsumption(sha, steps, j, k); }
    }
  }

  /** Validations run one at a time: each finish comes right after its own read. */
  ghost predicate OneAtATime(steps: seq<Step>) {
    forall j :: 0 <= j < |steps| && steps[j].Finish? ==> j > 0 && steps[j - 1].Read? && steps[j - 1].who == steps[j].who
  }

  /** Then no ticket succeeds twice. */
  lemma AtMostOneSuccess(sha: Hash, steps: seq<Step>, j: nat, k: nat)
    requires OneAtATime(steps)
    requires Succeeds(sha, steps, j) && Succeeds(sha, steps, k)
    requires Validation(sha, steps, j).raw == Validation(sha, steps, k).raw
    ensures j == k
  {
    SuccessReadBeforeConsumption(sha, steps, j, k);
    SuccessReadBeforeConsumption(sha, steps, k, j);
    var before := StateAt(sha, steps, j - 1);
    assert StateAt(sha, steps, j) == AfterStep(sha, before, steps[j - 1], j - 1);
    assert Validation(sha, steps, j).readAt == j - 1;
    assert StateAt(sha, steps, k) == AfterStep(sha, StateAt(sha, steps, k - 1), steps[k - 1], k - 1);
    assert Validation(sha, steps, k).readAt == k - 1;
  }

  /** It takes that: two validations that both read before either consumes both succeed. */
  lemma OverlapSucceedsTwice(sha: Hash)
    ensures
      var call := IssueCall(ServiceTicket, "u", "t", "svc", 60, "x", "1", 0, 0, true);
      var raw := RawTicket(call);
      var steps := [Issue(call), Read(1, raw, "svc", true), Read(2, raw, "svc", true),
                    Finish(1, 5, 5, true), Finish(2, 6, 6, true)];
      Succeeds(sha, steps, 3) && Succeeds(sha, steps, 4)
      && Validation(sha, steps, 3).raw == Validation(sha, steps, 4).raw
  {
    var call := IssueCall(ServiceTicket, "u", "t", "svc", 60, "x", "1", 0, 0, true);
    var raw, row := RawTicket(call), NewRow(sha, call);
    var steps := [Issue(call), Read(1, raw, "svc", true), Read(2, raw, "svc", true),
                  Finish(1, 5, 5, true), Finish(2, 6, 6, true)];
    var p1, p2 := Pending(raw, "svc", row, 1), Pending(raw, "svc", row, 2);
    assert StateAt(sha, steps, 1) == State([row], map[]);
    assert FindRow([row], sha(raw)) == Some(row);
    assert StateAt(sha, steps, 2) == State([row], map[1 := p1]);
    assert StateAt(sha, steps, 3) == State([row], map[1 := p1, 2 := p2]);
    assert StateAt(sha, steps, 4).pending[2] == p2;
  }
}
