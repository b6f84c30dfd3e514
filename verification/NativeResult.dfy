/** What the native model publishes for a request, and what the runner makes of it: the contract
    between the two (acquisition/qmt_model.py, acquisition/qmt_transport.py,
    acquisition/normalize.py). */
module NativeResult {
  import opened Basics
  import MinuteGrid

  type Code = nat

  datatype Product = StockMinute | OtherHistory | Snapshot | Reference

  datatype Request = Request(id: nat, codes: seq<Code>, product: Product, date: int)

  // The part of a native row that matters here: its exact date, if it names one, and whether it
  // carries the suspension flag.
  datatype Row = Row(date: Option<int>, suspended: bool, content: nat)

  // What a native container turns into: rows, a ValueError or TypeError, or any other exception.
  datatype Container = Rows(rows: seq<Row>) | Unreadable | Explodes

  // A native call fails, answers something that is not a map, or answers a map by security.
  datatype Answer = Fails | NoMap | Symbols(of: map<Code, Container>)

  // Everything the native side does for one request; a guard that finds the deadline past is a
  // failing call.
  datatype Native = Native(
    expired: bool, downloads: bool, readers: seq<Answer>, dailyDownloads: bool, daily: Answer,
    each: map<Code, Container>, lowDisk: bool, tooLarge: bool)

  datatype Status = DataStatus | NoDataStatus | ErrorStatus

  datatype Reason = Suspended | Expired | EmptyResult | Omitted | BadRows | CallFailed | TooLarge | LowDisk

  datatype Outcome = Outcome(status: Status, rows: seq<Row>, reason: Option<Reason>)

  datatype Result = Result(request: Request, outcomes: map<Code, Outcome>)

  function ErrorOf(reason: Reason): Outcome { Outcome(ErrorStatus, [], Some(reason)) }

  // `_data`: an empty container proves nothing.
  function DataOf(rows: seq<Row>): Outcome {
    if rows != [] then Outcome(DataStatus, rows, None) else ErrorOf(EmptyResult)
  }

  function AllErrors(codes: seq<Code>, reason: Reason): map<Code, Outcome> {
    map c | c in codes :: ErrorOf(reason)
  }

  // The checks of `validate_result` on one outcome.
  predicate ValidOutcome(o: Outcome) {
    && (o.status == DataStatus ==> o.rows != [])
    && (o.status != DataStatus ==> o.rows == [] && o.reason.Some?)
  }

  /** `validate_result` against the prepared request. */
  predicate Validates(r: Result, q: Request) {
    && r.request == q
    && (forall c <- r.outcomes :: c in q.codes) && (forall c <- q.codes :: c in r.outcomes)
    && forall c <- r.outcomes :: ValidOutcome(r.outcomes[c])
  }

  /* ---------- what each requested code is owed ---------- */

  // The answer that the history branch works with: the first reader that gives a map.
  function Chosen(readers: seq<Answer>): Option<map<Code, Container>> {
    if readers == [] then None
    else if readers[0].Symbols? then Some(readers[0].of)
    else Chosen(readers[1..])
  }

  // The native answer that a product's rows come from.
  function Source(q: Request, n: Native): Option<map<Code, Container>> {
    match q.product
    case Snapshot => if n.readers != [] && n.readers[0].Symbols? then Some(n.readers[0].of) else None
    case Reference => Some(n.each)
    case _ => if n.downloads then Chosen(n.readers) else None
  }

  // One code of a map by security.
  function OutcomeIn(source: map<Code, Container>, code: Code): Outcome {
    if code !in source then ErrorOf(Omitted)
    else match source[code]
      case Rows(rows) => DataOf(rows)
      case _ => ErrorOf(BadRows)
  }

  // The answer names requested codes only, and no container raises what the loop does not expect.
  predicate Usable(source: map<Code, Container>, codes: seq<Code>) {
    forall c <- source :: c in codes && !source[c].Explodes?
  }

  predicate IsEmpty(source: map<Code, Container>, code: Code) {
    code in source && source[code] == Rows([])
  }

  // The codes with an empty container, in the order requested.
  function EmptyCodes(codes: seq<Code>, source: map<Code, Container>): (empty: seq<Code>)
    ensures forall c :: c in empty <==> c in codes && IsEmpty(source, c)
  {
    if codes == [] then []
    else
      assert codes == codes[..|codes| - 1] + [codes[|codes| - 1]];
      var last := codes[|codes| - 1];
      EmptyCodes(codes[..|codes| - 1], source) + if IsEmpty(source, last) then [last] else []
  }

  // Exactly one daily row, on the very day, with the flag.
  predicate ProvesSuspension(rows: seq<Row>, date: int) {
    |rows| == 1 && rows[0].date == Some(date) && rows[0].suspended
  }

  // The daily answer can be looked at for these codes.
  predicate DailyUsable(n: Native, empty: seq<Code>) {
    n.dailyDownloads && n.daily.Symbols? && forall c <- n.daily.of :: c in empty
  }

  predicate RaisesAt(daily: map<Code, Container>, code: Code) {
    code in daily && !daily[code].Rows?
  }

  // The second look reaches `code` before any container that raises, and finds its proof.
  predicate ProvenIn(daily: map<Code, Container>, empty: seq<Code>, code: Code, date: int) {
    && code in daily && daily[code].Rows? && ProvesSuspension(daily[code].rows, date)
    && exists i :: 0 <= i < |empty| && empty[i] == code && forall j :: 0 <= j < i ==> !RaisesAt(daily, empty[j])
  }

  predicate Proven(q: Request, n: Native, source: map<Code, Container>, code: Code) {
    var empty := EmptyCodes(q.codes, source);
    q.product == StockMinute && DailyUsable(n, empty) && ProvenIn(n.daily.of, empty, code, q.date)
  }

  /** What the native side's answers are worth for one requested code. */
  function Owed(q: Request, n: Native, code: Code): Outcome {
    if n.expired then ErrorOf(Expired)
    else if q.product.Reference? then
      if code in n.each && n.each[code].Rows? then DataOf(n.each[code].rows) else ErrorOf(CallFailed)
    else if Source(q, n).None? || !Usable(Source(q, n).value, q.codes) then ErrorOf(CallFailed)
    else if Proven(q, n, Source(q, n).value, code) then Outcome(NoDataStatus, [], Some(Suspended))
    else OutcomeIn(Source(q, n).value, code)
  }

  // The same once it has been published.
  function Due(q: Request, n: Native, code: Code): Outcome {
    if n.lowDisk then ErrorOf(LowDisk) else if n.tooLarge then ErrorOf(TooLarge) else Owed(q, n, code)
  }

  // One outcome for each code and no other.
  predicate Covers(outcomes: map<Code, Outcome>, codes: seq<Code>) {
    (forall c <- outcomes :: c in codes) && (forall c <- codes :: c in outcomes)
  }

  // Data only as the native side gave it, no data only where a daily row of the very day proved a
  // suspension of a code whose minutes were empty.
  predicate Honest(o: Outcome, q: Request, n: Native, code: Code) {
    && (o.status == DataStatus ==>
          Source(q, n).Some? && code in Source(q, n).value && Source(q, n).value[code] == Rows(o.rows))
    && (o.status == NoDataStatus ==>
          && o.reason == Some(Suspended) && q.product == StockMinute
          && Source(q, n).Some? && IsEmpty(Source(q, n).value, code)
          && n.dailyDownloads && n.daily.Symbols? && code in n.daily.of && n.daily.of[code].Rows?
          && ProvesSuspension(n.daily.of[code].rows, q.date))
  }

  /** Whatever happens natively, a result with what is due passes the validation of its own request
      and claims nothing that the native side did not say. */
  lemma DueValidates(q: Request, n: Native, r: Result)
    requires r.request == q && Covers(r.outcomes, q.codes)
    requires forall c <- q.codes :: r.outcomes[c] == Due(q, n, c)
    ensures Validates(r, q)
    ensures forall c <- q.codes :: Honest(r.outcomes[c], q, n, c)
  {
    forall c <- q.codes ensures ValidOutcome(Due(q, n, c)) && Honest(Due(q, n, c), q, n, c) {
      OwedIsHonest(q, n, c);
    }
  }

  lemma OwedIsHonest(q: Request, n: Native, code: Code)
    ensures ValidOutcome(Owed(q, n, code)) && Honest(Owed(q, n, code), q, n, code)
  {
    if Source(q, n).Some? && Proven(q, n, Source(q, n).value, code) {
      var empty := EmptyCodes(q.codes, Source(q, n).value);
      assert code in empty;
    }
  }

  /** No row is lost: without an error of the whole request, every code with rows has them all. */
  lemma NoRowIsLost(q: Request, n: Native, code: Code, rows: seq<Row>)
    requires !n.lowDisk && !n.tooLarge && !n.expired && code in q.codes && rows != []
    requires Source(q, n).Some? && code in Source(q, n).value && Source(q, n).value[code] == Rows(rows)
    requires q.product.Reference? || Usable(Source(q, n).value, q.codes)
    ensures Due(q, n, code) == Outcome(DataStatus, rows, None)
  {
    assert code !in EmptyCodes(q.codes, Source(q, n).value);
  }

  // The first reader that answers with a map.
  predicate FirstMap(readers: seq<Answer>, k: nat) {
    k < |readers| && readers[k].Symbols? && forall j :: 0 <= j < k ==> !readers[j].Symbols?
  }

  lemma {:induction false} ChosenIsFirst(readers: seq<Answer>, k: nat)
    requires FirstMap(readers, k)
    ensures Chosen(readers) == Some(readers[k].of)
  {
    if k > 0 {
      assert forall j :: 0 <= j < |readers| - 1 ==> readers[1..][j] == readers[j + 1];
      ChosenIsFirst(readers[1..], k - 1);
    }
  }

  lemma {:induction false} FirstOfChosen(readers: seq<Answer>) returns (k: nat)
    requires Chosen(readers).Some?
    ensures FirstMap(readers, k)
  {
    if readers[0].Symbols? {
      k := 0;
    } else {
      k := FirstOfChosen(readers[1..]);
      assert forall j :: 0 <= j < k ==> readers[1..][j] == readers[j + 1];
      k := k + 1;
    }
  }

  predicate NoneRaises(codes: seq<Code>, daily: map<Code, Container>) {
    forall c <- codes :: !RaisesAt(daily, c)
  }

  // A look at the codes in turn comes to `code` before any container that raises.
  predicate Reached(codes: seq<Code>, daily: map<Code, Container>, code: Code) {
    exists i :: 0 <= i < |codes| && codes[i] == code && forall j :: 0 <= j < i ==> !RaisesAt(daily, codes[j])
  }

  lemma ReachedNext(front: seq<Code>, last: Code, daily: map<Code, Container>, code: Code)
    ensures Reached(front + [last], daily, code) <==>
            Reached(front, daily, code) || (last == code && NoneRaises(front, daily))
  {
    var codes := front + [last];
    if Reached(front, daily, code) {
      var i :| 0 <= i < |front| && front[i] == code && forall j :: 0 <= j < i ==> !RaisesAt(daily, front[j]);
      assert codes[i] == code && forall j :: 0 <= j < i ==> codes[j] == front[j];
    }
    if last == code && NoneRaises(front, daily) {
      assert codes[|front|] == code && forall j :: 0 <= j < |front| ==> codes[j] == front[j] && front[j] in front;
    }
    if Reached(codes, daily, code) {
      var i :| 0 <= i < |codes| && codes[i] == code && forall j :: 0 <= j < i ==> !RaisesAt(daily, codes[j]);
      assert forall j :: 0 <= j < i ==> codes[j] == front[j];
      if i == |front| {
        forall c <- front ensures !RaisesAt(daily, c) {
          var j :| 0 <= j < |front| && front[j] == c;
          assert codes[j] == c;
        }
      } else {
        assert front[i] == code;
      }
    }
  }

  // Leaving out codes that raise nothing changes nothing.
  lemma {:induction false} ReachedAmongEmpty(codes: seq<Code>, source: map<Code, Container>, daily: map<Code, Container>, code: Code)
    requires IsEmpty(source, code) && forall c <- daily :: IsEmpty(source, c)
    ensures Reached(EmptyCodes(codes, source), daily, code) <==> Reached(codes, daily, code)
  {
    if codes != [] {
      var front, last := codes[..|codes| - 1], codes[|codes| - 1];
      var empty := EmptyCodes(front, source);
      assert codes == front + [last];
      ReachedAmongEmpty(front, source, daily, code);
      ReachedNext(front, last, daily, code);
      if IsEmpty(source, last) {
        NoneRaisesAmongEmpty(front, source, daily);
        ReachedNext(empty, last, daily, code);
        assert EmptyCodes(codes, source) == empty + [last];
      } else {
        assert EmptyCodes(codes, source) == empty + [] == empty;
      }
    }
  }

  lemma NoneRaisesAmongEmpty(codes: seq<Code>, source: map<Code, Container>, daily: map<Code, Container>)
    requires forall c <- daily :: IsEmpty(source, c)
    ensures NoneRaises(EmptyCodes(codes, source), daily) <==> NoneRaises(codes, daily)
  {
  }

  /** The native side proves that a code of a minute request was suspended: the first reader that
      answers a map leaves its container empty and raises nothing, and the daily answer, which is
      about empty codes only, is reached with one row of the very day that carries the flag. */
  ghost predicate SaysSuspended(q: Request, n: Native, code: Code) {
    && q.product == StockMinute && n.downloads && n.dailyDownloads && n.daily.Symbols?
    && (exists k: nat :: FirstMap(n.readers, k)
                    && code in n.readers[k].of && n.readers[k].of[code] == Rows([])
                    && (forall c <- n.readers[k].of :: c in q.codes && !n.readers[k].of[c].Explodes?)
                    && (forall c <- n.daily.of :: c in n.readers[k].of && n.readers[k].of[c] == Rows([])))
    && Reached(q.codes, n.daily.of, code)
    && exists row :: code in n.daily.of && n.daily.of[code] == Rows([row]) && row.date == Some(q.date) && row.suspended
  }

  /** A requested code is published as no data exactly on that proof. */
  lemma SuspensionIsNoData(q: Request, n: Native, code: Code)
    requires code in q.codes
    ensures Due(q, n, code).status == NoDataStatus <==>
            !n.lowDisk && !n.tooLarge && !n.expired && SaysSuspended(q, n, code)
    ensures Due(q, n, code).status == NoDataStatus ==> Due(q, n, code) == Outcome(NoDataStatus, [], Some(Suspended))
  {
    if SaysSuspended(q, n, code) {
      SuspendedIsProven(q, n, code);
    }
    if Due(q, n, code).status == NoDataStatus {
      ProvenIsSuspended(q, n, code);
    }
  }

  lemma SuspendedIsProven(q: Request, n: Native, code: Code)
    requires SaysSuspended(q, n, code)
    ensures Source(q, n).Some? && Usable(Source(q, n).value, q.codes) && Proven(q, n, Source(q, n).value, code)
  {
    var k: nat :| FirstMap(n.readers, k)
             && code in n.readers[k].of && n.readers[k].of[code] == Rows([])
             && (forall c <- n.readers[k].of :: c in q.codes && !n.readers[k].of[c].Explodes?)
             && (forall c <- n.daily.of :: c in n.readers[k].of && n.readers[k].of[c] == Rows([]));
    ChosenIsFirst(n.readers, k);
    ReachedAmongEmpty(q.codes, n.readers[k].of, n.daily.of, code);
  }

  lemma ProvenIsSuspended(q: Request, n: Native, code: Code)
    requires !n.expired && Owed(q, n, code).status == NoDataStatus
    ensures SaysSuspended(q, n, code)
  {
    var source, rows := Source(q, n).value, n.daily.of[code].rows;
    var k := FirstOfChosen(n.readers);
    ChosenIsFirst(n.readers, k);
    assert Reached(EmptyCodes(q.codes, source), n.daily.of, code);
    ReachedAmongEmpty(q.codes, source, n.daily.of, code);
    assert n.daily.of[code] == Rows([rows[0]]);
  }

  /* ---------- the native model ---------- */

  /** The loop that reads one container per requested code; any exception other than the two it
      expects leaves it. */
  method ReadContainers(codes: seq<Code>, source: map<Code, Container>)
    returns (ok: bool, outcomes: map<Code, Outcome>)
    ensures ok <==> forall c <- codes :: c in source ==> !source[c].Explodes?
    ensures ok ==> Covers(outcomes, codes) && forall c <- codes :: outcomes[c] == OutcomeIn(source, c)
  {
    outcomes := map[];
    var i := 0;
    while i < |codes|
      invariant 0 <= i <= |codes| && Covers(outcomes, codes[..i])
      invariant forall c <- codes[..i] :: outcomes[c] == OutcomeIn(source, c)
      invariant forall c <- codes[..i] :: c in source ==> !source[c].Explodes?
    {
      var code := codes[i];
      assert codes[..i + 1] == codes[..i] + [code];
      if code !in source {
        outcomes := outcomes[code := ErrorOf(Omitted)];
      } else {
        match source[code] {
          case Rows(rows) => outcomes := outcomes[code := DataOf(rows)];
          case Unreadable => outcomes := outcomes[code := ErrorOf(BadRows)];
          case Explodes => return false, outcomes;
        }
      }
      i := i + 1;
    }
    assert codes[..i] == codes;
    ok := true;
  }

  /** The second look at empty minute containers: only a daily row of the very day that carries the
      suspension flag turns the error into no data. An exception keeps what was proven before it. */
  method ProveSuspensions(empty: seq<Code>, daily: map<Code, Container>, date: int, before: map<Code, Outcome>)
    returns (outcomes: map<Code, Outcome>)
    requires forall c <- empty :: c in before
    ensures outcomes.Keys == before.Keys
    ensures forall c <- before ::
      outcomes[c] == if ProvenIn(daily, empty, c, date) then Outcome(NoDataStatus, [], Some(Suspended)) else before[c]
  {
    outcomes := before;
    var i := 0;
    while i < |empty|
      invariant 0 <= i <= |empty| && outcomes.Keys == before.Keys
      invariant forall j :: 0 <= j < i ==> !RaisesAt(daily, empty[j])
      invariant forall c <- before ::
        outcomes[c] == if ProvenIn(daily, empty[..i], c, date) then Outcome(NoDataStatus, [], Some(Suspended)) else before[c]
    {
      var code := empty[i];
      NextProof(daily, empty, i, date);
      if RaisesAt(daily, code) {
        return;
      }
      if code in daily && ProvesSuspension(daily[code].rows, date) {
        outcomes := outcomes[code := Outcome(NoDataStatus, [], Some(Suspended))];
      }
      i := i + 1;
    }
    assert empty[..i] == empty;
  }

  // One code further, or the end of the second look.
  lemma NextProof(daily: map<Code, Container>, empty: seq<Code>, i: nat, date: int)
    requires i < |empty| && forall j :: 0 <= j < i ==> !RaisesAt(daily, empty[j])
    ensures forall c :: ProvenIn(daily, empty[..i + 1], c, date) <==>
      || ProvenIn(daily, empty[..i], c, date)
      || (c == empty[i] && c in daily && daily[c].Rows? && ProvesSuspension(daily[c].rows, date))
    ensures RaisesAt(daily, empty[i]) ==> forall c :: ProvenIn(daily, empty, c, date) <==> ProvenIn(daily, empty[..i], c, date)
  {
  }

  method ReadHistory(q: Request, n: Native) returns (ok: bool, outcomes: map<Code, Outcome>)
    requires !n.expired && (q.product.StockMinute? || q.product.OtherHistory?)
    ensures ok <==> Source(q, n).Some? && Usable(Source(q, n).value, q.codes)
    ensures ok ==> Covers(outcomes, q.codes) && forall c <- q.codes :: outcomes[c] == Owed(q, n, c)
  {
    outcomes := map[];
    if !n.downloads {
      return false, outcomes;
    }
    var i := 0;
    while i < |n.readers| && !n.readers[i].Symbols?
      invariant 0 <= i <= |n.readers| && Chosen(n.readers) == Chosen(n.readers[i..])
    {
      i := i + 1;
    }
    if i == |n.readers| {
      return false, outcomes;
    }
    var data := n.readers[i].of;
    if exists c <- data :: c !in q.codes {
      return false, outcomes;
    }
    ok, outcomes := ReadContainers(q.codes, data);
    var empty := EmptyCodes(q.codes, data);
    if ok && q.product == StockMinute && DailyUsable(n, empty) {
      outcomes := ProveSuspensions(empty, n.daily.of, q.date, outcomes);
    }
  }

  method ReadSnapshot(q: Request, n: Native) returns (ok: bool, outcomes: map<Code, Outcome>)
    requires !n.expired && q.product.Snapshot?
    ensures ok <==> Source(q, n).Some? && Usable(Source(q, n).value, q.codes)
    ensures ok ==> Covers(outcomes, q.codes) && forall c <- q.codes :: outcomes[c] == Owed(q, n, c)
  {
    outcomes := map[];
    if n.readers == [] || !n.readers[0].Symbols? || exists c <- n.readers[0].of :: c !in q.codes {
      return false, outcomes;
    }
    ok, outcomes := ReadContainers(q.codes, n.readers[0].of);
  }

  // Reference products: one call for each security, any failure confined to it.
  method ReadEach(q: Request, n: Native) returns (outcomes: map<Code, Outcome>)
    requires !n.expired && q.product.Reference?
    ensures Covers(outcomes, q.codes) && forall c <- q.codes :: outcomes[c] == Owed(q, n, c)
  {
    outcomes := map[];
    var i := 0;
    while i < |q.codes|
      invariant 0 <= i <= |q.codes| && Covers(outcomes, q.codes[..i])
      invariant forall c <- q.codes[..i] :: outcomes[c] == Owed(q, n, c)
    {
      var code := q.codes[i];
      assert q.codes[..i + 1] == q.codes[..i] + [code];
      if code in n.each && n.each[code].Rows? {
        outcomes := outcomes[code := DataOf(n.each[code].rows)];
      } else {
        outcomes := outcomes[code := ErrorOf(CallFailed)];
      }
      i := i + 1;
    }
    assert q.codes[..i] == q.codes;
  }

  /** `execute_request`. */
  method ExecuteRequest(q: Request, n: Native) returns (r: Result)
    ensures r.request == q && Covers(r.outcomes, q.codes)
    ensures forall c <- q.codes :: r.outcomes[c] == Owed(q, n, c)
  {
    if n.expired {
      return Result(q, AllErrors(q.codes, Expired));
    }
    var ok, outcomes := true, map[];
    match q.product {
      case Snapshot => ok, outcomes := ReadSnapshot(q, n);
      case Reference => outcomes := ReadEach(q, n);
      case _ => ok, outcomes := ReadHistory(q, n);
    }
    r := Result(q, if ok then outcomes else AllErrors(q.codes, CallFailed));
  }

  /** The part of `poll` that publishes: whatever happens natively, the result passes the
      validation of its own request, and each code has what is due. */
  method PublishedResult(q: Request, n: Native) returns (r: Result)
    ensures Validates(r, q)
    ensures forall c <- q.codes :: r.outcomes[c] == Due(q, n, c) && Honest(r.outcomes[c], q, n, c)
  {
    if n.lowDisk {
      r := Result(q, AllErrors(q.codes, LowDisk));
    } else {
      r := ExecuteRequest(q, n);
      if n.tooLarge {
        r := r.(outcomes := AllErrors(q.codes, TooLarge));
      }
    }
    DueValidates(q, n, r);
  }

  /* ---------- the consumer ---------- */

  datatype UnitStatus = Complete | NoData | Error

  datatype Unit = Unit(code: Code, status: UnitStatus, rows: seq<nat>, proof: Option<MinuteGrid.Proof>)

  // The grids of a minute product, what a code's unit is and what a business row says.
  datatype MinuteRules = MinuteRules(grids: Code -> MinuteGrid.Grids, unit: Code -> MinuteGrid.WorkUnit, row: nat -> MinuteGrid.Row)

  // What a product makes of native rows: business rows one for one or a refusal, their business
  // key, a check on all of them, and the minute evidence; and which reasons may leave it empty.
  datatype Policy = Policy(
    convert: (Code, Row) -> Option<nat>, keyOf: nat -> Option<int>, consistent: (Code, seq<nat>) -> bool,
    minute: Option<MinuteRules>, mayBeEmpty: Reason -> bool)

  // Every row has its business key, and no two share one.
  predicate KeysDistinct(p: Policy, rows: seq<nat>) {
    && (forall r <- rows :: p.keyOf(r).Some?)
    && forall i, j :: 0 <= i < j < |rows| ==> p.keyOf(rows[i]) != p.keyOf(rows[j])
  }

  // The evidence of a complete minute inventory; rows that are not one have none.
  function ProofOf(p: Policy, code: Code, rows: seq<nat>): Option<MinuteGrid.Proof> {
    if p.minute.None? then None
    else
      var m := p.minute.value;
      MinuteGrid.ProofOf(m.grids(code), m.unit(code), seq(|rows|, i requires 0 <= i < |rows| => m.row(rows[i])))
  }

  predicate Accepts(p: Policy, code: Code, rows: seq<nat>) {
    KeysDistinct(p, rows) && p.consistent(code, rows) && (p.minute.Some? ==> ProofOf(p, code, rows).Some?)
  }

  predicate Converts(p: Policy, code: Code, raw: seq<Row>) {
    forall i :: 0 <= i < |raw| ==> p.convert(code, raw[i]).Some?
  }

  // The business rows, in the order of the native ones.
  function Converted(p: Policy, code: Code, raw: seq<Row>): seq<nat>
    requires Converts(p, code, raw)
  {
    seq(|raw|, i requires 0 <= i < |raw| => p.convert(code, raw[i]).value)
  }

  method ConvertRows(p: Policy, code: Code, raw: seq<Row>) returns (ok: bool, rows: seq<nat>)
    ensures ok <==> Converts(p, code, raw)
    ensures ok ==> rows == Converted(p, code, raw)
  {
    rows := [];
    var i := 0;
    while i < |raw|
      invariant 0 <= i <= |raw| && |rows| == i
      invariant forall j :: 0 <= j < i ==> p.convert(code, raw[j]) == Some(rows[j])
    {
      var row := p.convert(code, raw[i]);
      if row.None? {
        return false, rows;
      }
      rows := rows + [row.value];
      i := i + 1;
    }
    ok := true;
  }

  // Whether a policy takes the rows of an outcome, and its absence of rows.
  predicate Takes(p: Policy, code: Code, o: Outcome) {
    o.status == DataStatus && o.rows != [] && Converts(p, code, o.rows) && Accepts(p, code, Converted(p, code, o.rows))
  }

  predicate TakesAsEmpty(p: Policy, o: Outcome) {
    o.status == NoDataStatus && o.rows == [] && o.reason.Some? && p.mayBeEmpty(o.reason.value)
  }

  /** Rows that convert to these business rows are taken exactly when there are some, every one has
      its business key, no two share one, they are consistent, and a minute product's have their
      evidence; rows of which one does not convert never are. */
  lemma TakesMeans(p: Policy, code: Code, o: Outcome, rows: seq<nat>)
    requires |rows| == |o.rows| && forall i :: 0 <= i < |rows| ==> p.convert(code, o.rows[i]) == Some(rows[i])
    ensures Takes(p, code, o) <==>
      && o.status == DataStatus && rows != []
      && (forall r <- rows :: p.keyOf(r).Some?) && (forall i, j :: 0 <= i < j < |rows| ==> p.keyOf(rows[i]) != p.keyOf(rows[j]))
      && p.consistent(code, rows) && (p.minute.Some? ==> ProofOf(p, code, rows).Some?)
  {
    assert Converted(p, code, o.rows) == rows;
  }

  lemma UnconvertedIsRefused(p: Policy, code: Code, o: Outcome, i: nat)
    requires i < |o.rows| && p.convert(code, o.rows[i]).None?
    ensures !Takes(p, code, o)
  {
  }

  // The unit of one requested code: complete exactly with rows the policy takes, empty exactly on
  // a reason it allows, an error otherwise.
  predicate UnitFits(p: Policy, u: Unit, code: Code, outcomes: map<Code, Outcome>) {
    && u.code == code && (u.rows != [] <==> u.status == Complete)
    && (u.status == Complete <==> code in outcomes && Takes(p, code, outcomes[code]))
    && (u.status == Complete ==> u.rows == Converted(p, code, outcomes[code].rows))
    && u.proof == (if u.status == Complete then ProofOf(p, code, u.rows) else None)
    && (u.status == NoData <==> code in outcomes && TakesAsEmpty(p, outcomes[code]))
  }

  /** `normalize_batch` once the request itself is accepted: one unit per requested code, in order. */
  method NormalizeBatch(p: Policy, q: Request, outcomes: map<Code, Outcome>) returns (units: seq<Unit>)
    ensures |units| == |q.codes| && forall i :: 0 <= i < |units| ==> UnitFits(p, units[i], q.codes[i], outcomes)
  {
    units := [];
    var i := 0;
    while i < |q.codes|
      invariant 0 <= i <= |q.codes| && |units| == i
      invariant forall j :: 0 <= j < i ==> UnitFits(p, units[j], q.codes[j], outcomes)
    {
      var unit := NormalizeOne(p, q.codes[i], outcomes);
      units := units + [unit];
      i := i + 1;
    }
  }

  method NormalizeOne(p: Policy, code: Code, outcomes: map<Code, Outcome>) returns (unit: Unit)
    ensures UnitFits(p, unit, code, outcomes)
  {
    var failed := Unit(code, Error, [], None);
    if code !in outcomes || outcomes[code].status == ErrorStatus {
      return failed;
    }
    var o := outcomes[code];
    if o.status == NoDataStatus {
      return if o.reason.None? || !p.mayBeEmpty(o.reason.value) || o.rows != [] then failed else Unit(code, NoData, [], None);
    }
    if o.rows == [] {
      return failed;
    }
    var ok, rows := ConvertRows(p, code, o.rows);
    unit := if ok && Accepts(p, code, rows) then Unit(code, Complete, rows, ProofOf(p, code, rows)) else failed;
  }

  // What `commit` asks of a unit before it writes it: the outcome guards and, of a complete minute
  // unit, the proof of its own rows.
  predicate CommitGuards(p: Policy, units: seq<Unit>) {
    forall u <- units ::
      && (u.status == Complete <==> u.rows != [])
      && (u.status == Complete && p.minute.Some? ==> u.proof.Some? && u.proof == ProofOf(p, u.code, u.rows))
  }

  /** From the native call to the commit: the published result validates, every requested code gets
      its one unit, no outcome guard of the commit can fire, a unit is complete exactly when the
      rows due to its code are taken, and empty only on a proven suspension. */
  method RequestToCommit(p: Policy, q: Request, n: Native) returns (r: Result, units: seq<Unit>)
    ensures Validates(r, q)
    ensures |units| == |q.codes| && CommitGuards(p, units)
    ensures forall i :: 0 <= i < |units| ==>
      && units[i].code == q.codes[i]
      && (units[i].status == Complete <==> Takes(p, q.codes[i], Due(q, n, q.codes[i])))
      && (units[i].status == NoData <==> TakesAsEmpty(p, Due(q, n, q.codes[i])))
    ensures forall i :: 0 <= i < |units| && units[i].status == NoData ==>
      q.product == StockMinute && n.daily.Symbols? && q.codes[i] in n.daily.of && n.daily.of[q.codes[i]].Rows?
      && ProvesSuspension(n.daily.of[q.codes[i]].rows, q.date)
  {
    r := PublishedResult(q, n);
    units := NormalizeBatch(p, q, r.outcomes);
    assert forall i :: 0 <= i < |units| ==> units[i].code in q.codes;
  }
}
