/** Operator sign-in: the per-client attempt throttle and the session registry, over a given clock. */
module OperatorAuth {
  import opened OrderedMap

  /** The throttle key of a request: its remote address. */
  datatype Client = Client(remoteAddress: string)

  // ---- The throttle -----------------------------------------------------------------------------

  datatype Limits = Limits(maxAttempts: int, windowMs: int)

  datatype Rec = Rec(count: int, resetAt: int)

  type Attempts = map<Client, Rec>

  predicate Admits(limits: Limits, t: Attempts, key: Client, now: int) {
    key in t && now <= t[key].resetAt ==> t[key].count < limits.maxAttempts
  }

  function Checked(t: Attempts, key: Client, now: int): Attempts {
    if key in t && now > t[key].resetAt then t - {key} else t
  }

  function Failed(limits: Limits, t: Attempts, key: Client, now: int): Attempts {
    if key !in t || now > t[key].resetAt then t[key := Rec(1, now + limits.windowMs)]
    else t[key := Rec(t[key].count + 1, t[key].resetAt)]
  }

  /** What a login request turns out to be once its body is read. */
  datatype Body = Unparsable | WrongPassword | RightPassword

  datatype Reply = TooManyAttempts | BadRequest | InvalidCredentials | SignedIn

  type RequestId = nat

  /** The two halves of a login, with the wait for its body between them: the check, then what follows it. */
  datatype LoginEvent = Arrives(id: RequestId, key: Client, now: int)
                      | Settles(id: RequestId, now: int, body: Body)

  /** The throttle's records and the logins that passed the check and still wait for their body. */
  datatype Desk = Desk(attempts: Attempts, flight: map<RequestId, Client>)

  function Settled(limits: Limits, t: Attempts, key: Client, now: int, body: Body): Attempts {
    match body
    case Unparsable => t
    case WrongPassword => Failed(limits, t, key, now)
    case RightPassword => t - {key}
  }

  function Step(limits: Limits, d: Desk, e: LoginEvent): Desk {
    match e
    case Arrives(id, key, now) =>
      if id in d.flight then d
      else if Admits(limits, d.attempts, key, now) then Desk(Checked(d.attempts, key, now), d.flight[id := key])
      else d.(attempts := Checked(d.attempts, key, now))
    case Settles(id, now, body) =>
      if id !in d.flight then d
      else Desk(Settled(limits, d.attempts, d.flight[id], now, body), d.flight - {id})
  }

  class LoginThrottle {
    const limits: Limits
    var attempts: Attempts

    constructor (limits: Limits)
      ensures this.limits == limits && attempts == map[]
    {
      this.limits := limits;
      attempts := map[];
    }

    method Check(key: Client, now: int) returns (admitted: bool)
      modifies this
      ensures admitted == Admits(limits, old(attempts), key, now)
      ensures attempts == Checked(old(attempts), key, now)
    {
      if key !in attempts {
        return true;
      }
      if now > attempts[key].resetAt {
        attempts := attempts - {key};
        return true;
      }
      return attempts[key].count < limits.maxAttempts;
    }

    method Fail(key: Client, now: int)
      modifies this
      ensures attempts == Failed(limits, old(attempts), key, now)
    {
      if key !in attempts || now > attempts[key].resetAt {
        attempts := attempts[key := Rec(1, now + limits.windowMs)];
      } else {
        attempts := attempts[key := Rec(attempts[key].count + 1, attempts[key].resetAt)];
      }
    }

    method Reset(key: Client)
      modifies this
      ensures attempts == old(attempts) - {key}
    {
      attempts := attempts - {key};
    }
  }

  /** The login handler, cut at its one await. */
  class LoginHandler {
    const throttle: LoginThrottle
    var flight: map<RequestId, Client>

    function State(): Desk
      reads this, throttle
    {
      Desk(throttle.attempts, flight)
    }

    constructor (limits: Limits)
      ensures State() == Desk(map[], map[]) && throttle.limits == limits && fresh(throttle)
    {
      throttle := new LoginThrottle(limits);
      flight := map[];
    }

    /** Up to the await: a refused request is answered at once, an admitted one starts to wait. */
    method OnRequest(id: RequestId, key: Client, now: int) returns (refusal: Option<Reply>)
      requires id !in flight
      modifies this, throttle
      ensures State() == Step(throttle.limits, old(State()), Arrives(id, key, now))
      ensures refusal == if Admits(throttle.limits, old(throttle.attempts), key, now)
                         then None else Some(TooManyAttempts)
      ensures id in flight <==> refusal.None?
    {
      var admitted := throttle.Check(key, now);
      if !admitted {
        return Some(TooManyAttempts);
      }
      flight := flight[id := key];
      return None;
    }

    /** From the await on: the password is judged, and only then is the throttle told. */
    method OnBody(id: RequestId, now: int, body: Body) returns (reply: Reply)
      requires id in flight
      modifies this, throttle
      ensures State() == Step(throttle.limits, old(State()), Settles(id, now, body))
      ensures reply == SignedIn <==> body == RightPassword
      ensures reply == InvalidCredentials <==> body == WrongPassword
      ensures reply == BadRequest <==> body == Unparsable
    {
      var key := flight[id];
      match body {
        case Unparsable =>
          reply := BadRequest;
        case WrongPassword =>
          throttle.Fail(key, now);
          reply := InvalidCredentials;
        case RightPassword =>
          throttle.Reset(key);
          reply := SignedIn;
      }
      flight := flight - {id};
    }
  }

  // ---- How many guesses get through -------------------------------------------------------------

  ghost function RunDesk(limits: Limits, h: seq<LoginEvent>): Desk {
    if h == [] then Desk(map[], map[]) else Step(limits, RunDesk(limits, h[..|h| - 1]), h[|h| - 1])
  }

  ghost function FlightOf(d: Desk, key: Client): set<RequestId> {
    set id | id in d.flight && d.flight[id] == key
  }

  ghost predicate SettlesFor(d: Desk, e: LoginEvent, key: Client, body: Body) {
    e.Settles? && e.id in d.flight && d.flight[e.id] == key && e.body == body
  }

  /** The wrong passwords of one client that were judged between two times, both included. */
  ghost function GuessesWithin(limits: Limits, h: seq<LoginEvent>, key: Client, from: int, to: int): nat {
    if h == [] then 0
    else
      var e := h[|h| - 1];
      GuessesWithin(limits, h[..|h| - 1], key, from, to) +
      if SettlesFor(RunDesk(limits, h[..|h| - 1]), e, key, WrongPassword) && from <= e.now <= to then 1 else 0
  }

  /**
   The clock does not run backwards, the client never signs in, and at no moment are more than `m` of its
   logins between check and body.
   */
  ghost predicate Guessing(limits: Limits, h: seq<LoginEvent>, key: Client, m: nat) {
    h == [] ||
    var p, e := h[..|h| - 1], h[|h| - 1];
    && Guessing(limits, p, key, m)
    && (p != [] ==> p[|p| - 1].now <= e.now)
    && !SettlesFor(RunDesk(limits, p), e, key, RightPassword)
    && |FlightOf(RunDesk(limits, h), key)| <= m
  }

  /** A limit below one still lets the first guess through. */
  ghost function Limit(limits: Limits): nat {
    if limits.maxAttempts < 1 then 1 else limits.maxAttempts
  }

  /** The most guesses one window counts when `m` logins overlap: those under way when it fills still land. */
  ghost function PerWindow(limits: Limits, m: nat): int {
    Limit(limits) + m - 1
  }

  /** The guess opens a window of its own: there is no live record. */
  predicate OpensWindow(d: Desk, key: Client, now: int) {
    key !in d.attempts || now > d.attempts[key].resetAt
  }

  ghost function Filed(ws: seq<seq<int>>, opens: bool, now: int): seq<seq<int>> {
    if opens || ws == [] then ws + [[now]] else ws[..|ws| - 1] + [ws[|ws| - 1] + [now]]
  }

  /** The guesses of one client, grouped by the window that counted them. */
  ghost function Windows(limits: Limits, h: seq<LoginEvent>, key: Client): seq<seq<int>> {
    if h == [] then []
    else
      var d, e := RunDesk(limits, h[..|h| - 1]), h[|h| - 1];
      var ws := Windows(limits, h[..|h| - 1], key);
      if SettlesFor(d, e, key, WrongPassword) then Filed(ws, OpensWindow(d, key, e.now), e.now) else ws
  }

  ghost predicate WindowOk(limits: Limits, m: nat, w: seq<int>) {
    && 0 < |w| <= PerWindow(limits, m)
    && forall i :: 0 <= i < |w| ==> w[0] <= w[i] && (i == 0 || w[i] <= w[0] + limits.windowMs)
  }

  ghost predicate WindowsOk(limits: Limits, m: nat, ws: seq<seq<int>>) {
    && (forall i :: 0 <= i < |ws| ==> WindowOk(limits, m, ws[i]))
    && (forall i :: 0 < i < |ws| ==> ws[i][0] > ws[i - 1][0] + limits.windowMs)
  }

  /**
   The live record is the last window's; without one the last window is over. A full window can still
   take the logins in flight and no others.
   */
  ghost predicate RecordFits(limits: Limits, m: nat, d: Desk, key: Client, ws: seq<seq<int>>, now: int)
    requires forall i :: 0 <= i < |ws| ==> |ws[i]| > 0
  {
    if key in d.attempts then
      && ws != []
      && d.attempts[key] == Rec(|ws[|ws| - 1]|, ws[|ws| - 1][0] + limits.windowMs)
      && now >= ws[|ws| - 1][0]
      && (d.attempts[key].count >= Limit(limits) ==>
            d.attempts[key].count + |FlightOf(d, key)| <= PerWindow(limits, m))
    else ws == [] || now > ws[|ws| - 1][0] + limits.windowMs
  }

  lemma FlightStep(limits: Limits, d: Desk, e: LoginEvent, key: Client)
    ensures e.Settles? && e.id in d.flight && d.flight[e.id] == key ==>
              |FlightOf(Step(limits, d, e), key)| == |FlightOf(d, key)| - 1
    ensures e.Settles? ==> FlightOf(Step(limits, d, e), key) <= FlightOf(d, key)
    ensures e.Settles? && e.id in d.flight && d.flight[e.id] != key ==>
              FlightOf(Step(limits, d, e), key) == FlightOf(d, key)
    ensures e.Arrives? && e.key != key ==> FlightOf(Step(limits, d, e), key) == FlightOf(d, key)
  {
    if e.Settles? && e.id in d.flight && d.flight[e.id] == key {
      assert FlightOf(Step(limits, d, e), key) == FlightOf(d, key) - {e.id};
    }
  }

  lemma ArrivalFits(limits: Limits, m: nat, d: Desk, ws: seq<seq<int>>, now: int, e: LoginEvent, key: Client)
    requires WindowsOk(limits, m, ws) && RecordFits(limits, m, d, key, ws, now)
    requires e.Arrives? && now <= e.now
    ensures RecordFits(limits, m, Step(limits, d, e), key, ws, e.now)
  {
    FlightStep(limits, d, e, key);
  }

  /** A settling that is not a guess of this client leaves its record alone. */
  lemma OtherSettlingFits(limits: Limits, m: nat, d: Desk, ws: seq<seq<int>>, now: int, e: LoginEvent,
                          key: Client)
    requires WindowsOk(limits, m, ws) && RecordFits(limits, m, d, key, ws, now)
    requires e.Settles? && now <= e.now
    requires !SettlesFor(d, e, key, WrongPassword) && !SettlesFor(d, e, key, RightPassword)
    ensures RecordFits(limits, m, Step(limits, d, e), key, ws, e.now)
  {
    FlightStep(limits, d, e, key);
  }

  lemma GuessFits(limits: Limits, m: nat, d: Desk, ws: seq<seq<int>>, now: int, e: LoginEvent, key: Client)
    requires WindowsOk(limits, m, ws) && RecordFits(limits, m, d, key, ws, now) && now <= e.now
    requires SettlesFor(d, e, key, WrongPassword) && |FlightOf(d, key)| <= m
    ensures WindowsOk(limits, m, Filed(ws, OpensWindow(d, key, e.now), e.now))
    ensures RecordFits(limits, m, Step(limits, d, e), key, Filed(ws, OpensWindow(d, key, e.now), e.now), e.now)
  {
    FlightStep(limits, d, e, key);
    assert e.id in FlightOf(d, key);
    if OpensWindow(d, key, e.now) || ws == [] {
      assert WindowOk(limits, m, [e.now]);
    } else {
      assert WindowOk(limits, m, ws[|ws| - 1] + [e.now]);
    }
  }

  lemma {:induction false} WindowsInvariant(limits: Limits, h: seq<LoginEvent>, key: Client, m: nat, now: int)
    requires Guessing(limits, h, key, m)
    requires h != [] ==> now == h[|h| - 1].now
    ensures WindowsOk(limits, m, Windows(limits, h, key))
    ensures RecordFits(limits, m, RunDesk(limits, h), key, Windows(limits, h, key), now)
  {
    if h != [] {
      var p, e := h[..|h| - 1], h[|h| - 1];
      var earlier := if p == [] then e.now else p[|p| - 1].now;
      var d, ws := RunDesk(limits, p), Windows(limits, p, key);
      WindowsInvariant(limits, p, key, m, earlier);
      FlightIsBounded(limits, p, key, m);
      if e.Arrives? {
        ArrivalFits(limits, m, d, ws, earlier, e, key);
      } else if SettlesFor(d, e, key, WrongPassword) {
        GuessFits(limits, m, d, ws, earlier, e, key);
      } else {
        OtherSettlingFits(limits, m, d, ws, earlier, e, key);
      }
    }
  }

  lemma FlightIsBounded(limits: Limits, h: seq<LoginEvent>, key: Client, m: nat)
    requires Guessing(limits, h, key, m)
    ensures |FlightOf(RunDesk(limits, h), key)| <= m
  {
    if h == [] {
      assert FlightOf(RunDesk(limits, h), key) == {};
    }
  }

  ghost function CountIn(w: seq<int>, from: int, to: int): nat {
    if w == [] then 0 else CountIn(w[..|w| - 1], from, to) + if from <= w[|w| - 1] <= to then 1 else 0
  }

  ghost function CountAll(ws: seq<seq<int>>, from: int, to: int): nat {
    if ws == [] then 0 else CountAll(ws[..|ws| - 1], from, to) + CountIn(ws[|ws| - 1], from, to)
  }

  lemma {:induction false} CountInBounds(w: seq<int>, from: int, to: int)
    ensures CountIn(w, from, to) <= |w|
    ensures w != [] && !(from <= w[0] <= to) ==> CountIn(w, from, to) <= |w| - 1
    ensures (forall i :: 0 <= i < |w| ==> !(from <= w[i] <= to)) ==> CountIn(w, from, to) == 0
  {
    if w != [] {
      CountInBounds(w[..|w| - 1], from, to);
    }
  }

  lemma CountPushes(ws: seq<seq<int>>, opens: bool, t: int, from: int, to: int)
    ensures CountAll(Filed(ws, opens, t), from, to) == CountAll(ws, from, to) + if from <= t <= to then 1 else 0
  {
    assert (ws + [[t]])[..|ws|] == ws;
    assert [t][..0] == [];
    assert CountIn([t], from, to) == if from <= t <= to then 1 else 0;
    if ws != [] {
      var last := ws[|ws| - 1];
      var next := ws[..|ws| - 1] + [last + [t]];
      assert next[..|next| - 1] == ws[..|ws| - 1];
      assert (last + [t])[..|last|] == last;
    }
  }

  lemma {:induction false} CountedByWindow(limits: Limits, h: seq<LoginEvent>, key: Client, from: int, to: int)
    ensures GuessesWithin(limits, h, key, from, to) == CountAll(Windows(limits, h, key), from, to)
  {
    if h != [] {
      var p, e := h[..|h| - 1], h[|h| - 1];
      CountedByWindow(limits, p, key, from, to);
      if SettlesFor(RunDesk(limits, p), e, key, WrongPassword) {
        CountPushes(Windows(limits, p, key), OpensWindow(RunDesk(limits, p), key, e.now), e.now, from, to);
      }
    }
  }

  /** Windows that closed before an interval starts have nothing in it. */
  lemma {:induction false} ClosedWindowsAreOut(limits: Limits, m: nat, ws: seq<seq<int>>, from: int, to: int)
    requires WindowsOk(limits, m, ws) && 0 <= limits.windowMs
    requires ws != [] ==> ws[|ws| - 1][0] + limits.windowMs < from
    ensures CountAll(ws, from, to) == 0
  {
    if ws != [] {
      CountInBounds(ws[|ws| - 1], from, to);
      ClosedWindowsAreOut(limits, m, ws[..|ws| - 1], from, to);
    }
  }

  /** An interval as long as a window meets at most two, and not the opening guess of the earlier one. */
  lemma {:induction false} TwoWindowsAtMost(limits: Limits, m: nat, ws: seq<seq<int>>, from: int)
    requires WindowsOk(limits, m, ws) && 0 <= limits.windowMs && m >= 1
    ensures CountAll(ws, from, from + limits.windowMs) <= 2 * PerWindow(limits, m) - 1
  {
    if ws != [] {
      var to := from + limits.windowMs;
      TwoWindowsAtMost(limits, m, ws[..|ws| - 1], from);
      if to < ws[|ws| - 1][0] {
        CountInBounds(ws[|ws| - 1], from, to);
      } else {
        LastWindowMet(limits, m, ws, from);
      }
    }
  }

  /** When the interval reaches the last window, the one before gives at most all but its first guess. */
  lemma LastWindowMet(limits: Limits, m: nat, ws: seq<seq<int>>, from: int)
    requires WindowsOk(limits, m, ws) && 0 <= limits.windowMs && ws != []
    requires ws[|ws| - 1][0] <= from + limits.windowMs
    ensures CountAll(ws, from, from + limits.windowMs) <= 2 * PerWindow(limits, m) - 1
  {
    var to := from + limits.windowMs;
    var rest := ws[..|ws| - 1];
    CountInBounds(ws[|ws| - 1], from, to);
    assert WindowOk(limits, m, ws[|ws| - 1]);
    if rest != [] {
      CountInBounds(rest[|rest| - 1], from, to);
      ClosedWindowsAreOut(limits, m, rest[..|rest| - 1], from, to);
    }
  }

  /**
   However a client's logins are spaced and whatever other clients do, with at most `m` of them between
   check and body at a time no stretch of time as long as one window sees more than twice
   `Limit + m - 1`, less one, of its wrong passwords. Logins one after the other are the case `m == 1`.
   */
  lemma GuessesAreBounded(limits: Limits, h: seq<LoginEvent>, key: Client, m: nat, from: int)
    requires Guessing(limits, h, key, m) && 0 <= limits.windowMs && m >= 1
    ensures GuessesWithin(limits, h, key, from, from + limits.windowMs) <=
            2 * ((if limits.maxAttempts < 1 then 1 else limits.maxAttempts) + m - 1) - 1
  {
    if h != [] {
      WindowsInvariant(limits, h, key, m, h[|h| - 1].now);
      CountedByWindow(limits, h, key, from, from + limits.windowMs);
      TwoWindowsAtMost(limits, m, Windows(limits, h, key), from);
    }
  }

  // ---- The bound is reached ---------------------------------------------------------------------

  /**
   Where a history of one client's guesses has got to: its record, the logins `lo` to `hi - 1` that wait,
   the guesses counted and the clock. Logins enter at the top and miss at the bottom.
   */
  datatype Mark = Mark(rec: Option<Rec>, lo: nat, hi: nat, guesses: nat, now: int)

  /** The stretch of time in which guesses are counted. */
  datatype Span = Span(from: int, to: int) {
    predicate Has(t: int) {
      from <= t <= to
    }
  }

  ghost function Ids(lo: nat, hi: nat): (ids: set<RequestId>)
    ensures forall id: RequestId :: id in ids <==> lo <= id < hi
    ensures lo <= hi ==> |ids| == hi - lo
  {
    if hi <= lo then {} else Ids(lo, hi - 1) + {hi - 1}
  }

  ghost predicate RecordIs(t: Attempts, key: Client, rec: Option<Rec>) {
    rec == if key in t then Some(t[key]) else None
  }

  ghost predicate FlightIs(flight: map<RequestId, Client>, key: Client, lo: nat, hi: nat) {
    flight.Keys == Ids(lo, hi) && forall id :: id in flight ==> flight[id] == key
  }

  ghost predicate DeskIs(d: Desk, key: Client, mark: Mark) {
    RecordIs(d.attempts, key, mark.rec) && FlightIs(d.flight, key, mark.lo, mark.hi)
  }

  ghost predicate StandsAt(limits: Limits, h: seq<LoginEvent>, key: Client, m: nat, span: Span, mark: Mark) {
    && Guessing(limits, h, key, m)
    && (h != [] ==> h[|h| - 1].now <= mark.now)
    && DeskIs(RunDesk(limits, h), key, mark)
    && GuessesWithin(limits, h, key, span.from, span.to) == mark.guesses
  }

  predicate MayEnter(limits: Limits, m: nat, mark: Mark, now: int) {
    && mark.lo <= mark.hi < mark.lo + m && mark.now <= now
    && (mark.rec.Some? && now <= mark.rec.value.resetAt ==> mark.rec.value.count < limits.maxAttempts)
  }

  function Entered(mark: Mark, now: int): Mark {
    Mark(if mark.rec.Some? && now > mark.rec.value.resetAt then None else mark.rec,
         mark.lo, mark.hi + 1, mark.guesses, now)
  }

  predicate MayMiss(mark: Mark, now: int) {
    mark.lo < mark.hi && mark.now <= now
  }

  function Missed(limits: Limits, span: Span, mark: Mark, now: int): Mark {
    Mark(Some(RecAfterGuess(limits, mark.rec, now)), mark.lo + 1, mark.hi,
         mark.guesses + if span.Has(now) then 1 else 0, now)
  }

  lemma FlightGrows(flight: map<RequestId, Client>, key: Client, lo: nat, hi: nat)
    requires FlightIs(flight, key, lo, hi) && lo <= hi
    ensures hi !in flight && FlightIs(flight[hi := key], key, lo, hi + 1)
  {
    assert Ids(lo, hi + 1) == Ids(lo, hi) + {hi};
    assert hi !in flight.Keys;
  }

  lemma FlightShrinks(flight: map<RequestId, Client>, key: Client, lo: nat, hi: nat)
    requires FlightIs(flight, key, lo, hi) && lo < hi
    ensures lo in flight && flight[lo] == key && FlightIs(flight - {lo}, key, lo + 1, hi)
  {
    assert lo in flight.Keys;
    assert Ids(lo + 1, hi) == Ids(lo, hi) - {lo};
  }

  lemma DeskEntered(limits: Limits, d: Desk, key: Client, m: nat, mark: Mark, now: int)
    requires DeskIs(d, key, mark) && MayEnter(limits, m, mark, now)
    ensures DeskIs(Step(limits, d, Arrives(mark.hi, key, now)), key, Entered(mark, now))
  {
    FlightGrows(d.flight, key, mark.lo, mark.hi);
  }

  function RecAfterGuess(limits: Limits, rec: Option<Rec>, now: int): Rec {
    if rec.Some? && now <= rec.value.resetAt then Rec(rec.value.count + 1, rec.value.resetAt)
    else Rec(1, now + limits.windowMs)
  }

  lemma RecordMissed(limits: Limits, t: Attempts, key: Client, rec: Option<Rec>, now: int)
    requires RecordIs(t, key, rec)
    ensures RecordIs(Failed(limits, t, key, now), key, Some(RecAfterGuess(limits, rec, now)))
  {
  }

  lemma DeskMissed(limits: Limits, d: Desk, key: Client, span: Span, mark: Mark, now: int)
    requires DeskIs(d, key, mark) && MayMiss(mark, now)
    ensures SettlesFor(d, Settles(mark.lo, now, WrongPassword), key, WrongPassword)
    ensures DeskIs(Step(limits, d, Settles(mark.lo, now, WrongPassword)), key, Missed(limits, span, mark, now))
  {
    FlightShrinks(d.flight, key, mark.lo, mark.hi);
    RecordMissed(limits, d.attempts, key, mark.rec, now);
  }

  lemma DeskFlight(d: Desk, key: Client, mark: Mark)
    requires DeskIs(d, key, mark) && mark.lo <= mark.hi
    ensures |FlightOf(d, key)| == mark.hi - mark.lo
  {
    assert FlightOf(d, key) == Ids(mark.lo, mark.hi);
  }

  lemma OneEventMore(limits: Limits, h: seq<LoginEvent>, e: LoginEvent, key: Client, m: nat, span: Span)
    requires Guessing(limits, h, key, m) && (h != [] ==> h[|h| - 1].now <= e.now)
    requires !SettlesFor(RunDesk(limits, h), e, key, RightPassword)
    requires |FlightOf(Step(limits, RunDesk(limits, h), e), key)| <= m
    ensures RunDesk(limits, h + [e]) == Step(limits, RunDesk(limits, h), e)
    ensures Guessing(limits, h + [e], key, m)
    ensures GuessesWithin(limits, h + [e], key, span.from, span.to) ==
            GuessesWithin(limits, h, key, span.from, span.to) +
            if SettlesFor(RunDesk(limits, h), e, key, WrongPassword) && span.Has(e.now) then 1 else 0
  {
    assert (h + [e])[..|h|] == h;
  }

  lemma EnteringStands(limits: Limits, h: seq<LoginEvent>, key: Client, m: nat, span: Span, mark: Mark, now: int)
    requires StandsAt(limits, h, key, m, span, mark) && MayEnter(limits, m, mark, now)
    ensures StandsAt(limits, h + [Arrives(mark.hi, key, now)], key, m, span, Entered(mark, now))
  {
    var d, e := RunDesk(limits, h), Arrives(mark.hi, key, now);
    DeskEntered(limits, d, key, m, mark, now);
    DeskFlight(Step(limits, d, e), key, Entered(mark, now));
    OneEventMore(limits, h, e, key, m, span);
  }

  lemma MissingStands(limits: Limits, h: seq<LoginEvent>, key: Client, m: nat, span: Span, mark: Mark, now: int)
    requires StandsAt(limits, h, key, m, span, mark) && MayMiss(mark, now)
    ensures StandsAt(limits, h + [Settles(mark.lo, now, WrongPassword)], key, m, span,
                     Missed(limits, span, mark, now))
  {
    var d, e := RunDesk(limits, h), Settles(mark.lo, now, WrongPassword);
    FlightIsBounded(limits, h, key, m);
    DeskFlight(d, key, mark);
    DeskMissed(limits, d, key, span, mark, now);
    DeskFlight(Step(limits, d, e), key, Missed(limits, span, mark, now));
    OneEventMore(limits, h, e, key, m, span);
  }

  /** One move of the schedule: a login enters, or the one that waits longest misses. */
  datatype Move = Enter(at: int) | Miss(at: int)

  predicate Legal(limits: Limits, m: nat, mark: Mark, move: Move) {
    match move
    case Enter(at) => MayEnter(limits, m, mark, at)
    case Miss(at) => MayMiss(mark, at)
  }

  function Moved(limits: Limits, span: Span, mark: Mark, move: Move): Mark {
    match move
    case Enter(at) => Entered(mark, at)
    case Miss(at) => Missed(limits, span, mark, at)
  }

  /** The mark a schedule leads to from the start, if every move of it is legal. */
  function Played(limits: Limits, m: nat, span: Span, moves: seq<Move>): Option<Mark> {
    if moves == [] then Some(Mark(None, 0, 0, 0, 0))
    else
      match Played(limits, m, span, moves[..|moves| - 1])
      case Some(mark) =>
        if Legal(limits, m, mark, moves[|moves| - 1]) then Some(Moved(limits, span, mark, moves[|moves| - 1]))
        else None
      case None => None
  }

  lemma PlayedStep(limits: Limits, m: nat, span: Span, moves: seq<Move>, mark: Mark, move: Move)
    requires Played(limits, m, span, moves) == Some(mark) && Legal(limits, m, mark, move)
    ensures Played(limits, m, span, moves + [move]) == Some(Moved(limits, span, mark, move))
  {
    assert (moves + [move])[..|moves|] == moves;
  }

  /** Every legal schedule is the course of some history. */
  lemma {:induction false} PlayedIsRun(limits: Limits, key: Client, m: nat, span: Span, moves: seq<Move>)
    returns (h: seq<LoginEvent>)
    requires Played(limits, m, span, moves).Some?
    ensures StandsAt(limits, h, key, m, span, Played(limits, m, span, moves).value)
  {
    var n := |moves| - 1;
    if moves == [] {
      h := [];
    } else {
      var mark := Played(limits, m, span, moves[..n]).value;
      var p := PlayedIsRun(limits, key, m, span, moves[..n]);
      match moves[n]
      case Enter(at) =>
        EnteringStands(limits, p, key, m, span, mark, at);
        h := p + [Arrives(mark.hi, key, at)];
      case Miss(at) =>
        MissingStands(limits, p, key, m, span, mark, at);
        h := p + [Settles(mark.lo, at, WrongPassword)];
    }
  }

  lemma ScheduleIsRun(limits: Limits, key: Client, m: nat, span: Span, moves: seq<Move>)
    returns (h: seq<LoginEvent>)
    requires Played(limits, m, span, moves).Some?
    ensures Guessing(limits, h, key, m)
    ensures GuessesWithin(limits, h, key, span.from, span.to) == Played(limits, m, span, moves).value.guesses
  {
    h := PlayedIsRun(limits, key, m, span, moves);
  }

  /** `k` logins enter where no live record stops them. */
  lemma {:induction false} ManyEnter(limits: Limits, m: nat, span: Span, moves: seq<Move>, mark: Mark, now: int,
                                     k: nat)
    returns (ms: seq<Move>)
    requires Played(limits, m, span, moves) == Some(mark) && mark.lo == mark.hi && mark.now <= now
    requires (mark.rec.Some? ==> now > mark.rec.value.resetAt) && 1 <= k <= m
    ensures Played(limits, m, span, ms) == Some(Mark(None, mark.lo, mark.lo + k, mark.guesses, now))
  {
    if k == 1 {
      PlayedStep(limits, m, span, moves, mark, Enter(now));
      ms := moves + [Enter(now)];
    } else {
      ms := ManyEnter(limits, m, span, moves, mark, now, k - 1);
      PlayedStep(limits, m, span, ms, Mark(None, mark.lo, mark.lo + k - 1, mark.guesses, now), Enter(now));
      ms := ms + [Enter(now)];
    }
  }

  /** `k` more logins enter and miss beside those that wait, all counted by the live window. */
  lemma {:induction false} EnterAndMiss(limits: Limits, m: nat, span: Span, moves: seq<Move>, mark: Mark, now: int,
                                        k: nat)
    returns (ms: seq<Move>)
    requires Played(limits, m, span, moves) == Some(mark) && mark.now <= now && span.Has(now)
    requires mark.rec.Some? && now <= mark.rec.value.resetAt && mark.rec.value.count + k <= Limit(limits)
    requires mark.rec.value.count >= 1 && mark.lo <= mark.hi < mark.lo + m
    ensures var rec := mark.rec.value;
            Played(limits, m, span, ms) == Some(Mark(Some(Rec(rec.count + k, rec.resetAt)), mark.lo + k, mark.hi + k,
                                                     mark.guesses + k, if k == 0 then mark.now else now))
  {
    if k == 0 {
      ms := moves;
    } else {
      ms := EnterAndMiss(limits, m, span, moves, mark, now, k - 1);
      var before := Played(limits, m, span, ms).value;
      PlayedStep(limits, m, span, ms, before, Enter(now));
      PlayedStep(limits, m, span, ms + [Enter(now)], Entered(before, now), Miss(now));
      ms := ms + [Enter(now)] + [Miss(now)];
    }
  }

  /** Those that wait when the window is full all land in it. */
  lemma {:induction false} TheRestLand(limits: Limits, m: nat, span: Span, moves: seq<Move>, mark: Mark, now: int,
                                       k: nat)
    returns (ms: seq<Move>)
    requires Played(limits, m, span, moves) == Some(mark) && mark.now <= now && span.Has(now)
    requires mark.rec.Some? && now <= mark.rec.value.resetAt && mark.lo + k <= mark.hi
    ensures var rec := mark.rec.value;
            Played(limits, m, span, ms) == Some(Mark(Some(Rec(rec.count + k, rec.resetAt)), mark.lo + k, mark.hi,
                                                     mark.guesses + k, if k == 0 then mark.now else now))
  {
    if k == 0 {
      ms := moves;
    } else {
      ms := TheRestLand(limits, m, span, moves, mark, now, k - 1);
      PlayedStep(limits, m, span, ms, Played(limits, m, span, ms).value, Miss(now));
      ms := ms + [Miss(now)];
    }
  }

  /** A whole window: `m` pass the check and one fails at `start`, all others fail at `now`. */
  lemma Volley(limits: Limits, m: nat, span: Span, moves: seq<Move>, mark: Mark, start: int, now: int)
    returns (ms: seq<Move>, next: Mark)
    requires m >= 1 && mark.now <= start <= now <= start + limits.windowMs && span.Has(now)
    requires Played(limits, m, span, moves) == Some(mark) && mark.lo == mark.hi
    requires mark.rec.Some? ==> start > mark.rec.value.resetAt
    ensures Played(limits, m, span, ms) == Some(next)
    ensures next.lo == next.hi && next.now <= now && next.rec.Some? && next.rec.value.resetAt == start + limits.windowMs
    ensures next.guesses == mark.guesses + PerWindow(limits, m) - if span.Has(start) then 0 else 1
  {
    ms := ManyEnter(limits, m, span, moves, mark, start, m);
    PlayedStep(limits, m, span, ms, Mark(None, mark.lo, mark.lo + m, mark.guesses, start), Miss(start));
    ms := ms + [Miss(start)];
    ms := EnterAndMiss(limits, m, span, ms, Played(limits, m, span, ms).value, now, Limit(limits) - 1);
    ms := TheRestLand(limits, m, span, ms, Played(limits, m, span, ms).value, now, m - 1);
    next := Played(limits, m, span, ms).value;
  }

  lemma WorstSchedule(limits: Limits, m: nat) returns (moves: seq<Move>)
    requires limits.windowMs >= 1 && m >= 1
    ensures var mark := Played(limits, m, Span(limits.windowMs, limits.windowMs + limits.windowMs), moves);
            mark.Some? && mark.value.guesses == 2 * PerWindow(limits, m) - 1
  {
    var w := limits.windowMs;
    var span := Span(w, w + w);
    var first, between := Volley(limits, m, span, [], Mark(None, 0, 0, 0, 0), 0, w);
    moves, between := Volley(limits, m, span, first, between, w + 1, w + 1);
  }

  /** For every limit, positive window and overlap there is a client that gets that many guesses in. */
  lemma BoundIsReached(limits: Limits, key: Client, m: nat) returns (h: seq<LoginEvent>, from: int)
    requires limits.windowMs >= 1 && m >= 1
    ensures Guessing(limits, h, key, m)
    ensures GuessesWithin(limits, h, key, from, from + limits.windowMs) ==
            2 * ((if limits.maxAttempts < 1 then 1 else limits.maxAttempts) + m - 1) - 1
  {
    from := limits.windowMs;
    var moves := WorstSchedule(limits, m);
    h := ScheduleIsRun(limits, key, m, Span(from, from + from), moves);
  }

  /** Two logins that overlap already pass the bound of logins one after the other. */
  lemma OverlapExceedsTheSequentialBound(limits: Limits, key: Client) returns (h: seq<LoginEvent>, from: int)
    requires limits.windowMs >= 1
    ensures Guessing(limits, h, key, 2)
    ensures GuessesWithin(limits, h, key, from, from + limits.windowMs) >
            2 * (if limits.maxAttempts < 1 then 1 else limits.maxAttempts) - 1
  {
    h, from := BoundIsReached(limits, key, 2);
  }

  /** And with no bound on the overlap there is none on the guesses, whatever the limit. */
  lemma NoBoundWithoutOne(limits: Limits, key: Client, n: nat) returns (h: seq<LoginEvent>, from: int)
    requires limits.windowMs >= 1
    ensures Guessing(limits, h, key, n + 1)
    ensures GuessesWithin(limits, h, key, from, from + limits.windowMs) > n
  {
    h, from := BoundIsReached(limits, key, n + 1);
  }

  // ---- After a sign-in ----------------------------------------------------------------------------

  /** Wrong passwords of one client, one login after the other: each arrives and is judged at its own time. */
  ghost function GuessOneByOne(limits: Limits, d: Desk, id: RequestId, key: Client, times: seq<int>): Desk {
    if times == [] then d
    else
      var p := GuessOneByOne(limits, d, id, key, times[..|times| - 1]);
      var now := times[|times| - 1];
      Step(limits, Step(limits, p, Arrives(id, key, now)), Settles(id, now, WrongPassword))
  }

  /** At most so many guesses are on the client's record, and none is under way under this id. */
  ghost predicate Counts(d: Desk, id: RequestId, key: Client, n: nat) {
    id !in d.flight && (key in d.attempts ==> d.attempts[key].count <= n)
  }

  lemma OneGuessMore(limits: Limits, d: Desk, id: RequestId, key: Client, n: nat, now: int)
    requires Counts(d, id, key, n) && (n == 0 ==> key !in d.attempts) && (n == 0 || n < limits.maxAttempts)
    ensures Admits(limits, d.attempts, key, now)
    ensures var after := Step(limits, Step(limits, d, Arrives(id, key, now)), Settles(id, now, WrongPassword));
            Counts(after, id, key, n + 1)
  {
  }

  lemma {:induction false} GuessesAreCounted(limits: Limits, d: Desk, id: RequestId, key: Client, times: seq<int>)
    requires id !in d.flight && key !in d.attempts
    requires |times| <= limits.maxAttempts || |times| <= 1
    ensures Counts(GuessOneByOne(limits, d, id, key, times), id, key, |times|)
    ensures times == [] ==> key !in GuessOneByOne(limits, d, id, key, times).attempts
  {
    if times != [] {
      var last := |times| - 1;
      GuessesAreCounted(limits, d, id, key, times[..last]);
      OneGuessMore(limits, GuessOneByOne(limits, d, id, key, times[..last]), id, key, last, times[last]);
    }
  }

  lemma FreshClientHasItsLimit(limits: Limits, d: Desk, id: RequestId, key: Client, times: seq<int>, n: nat)
    requires id !in d.flight && key !in d.attempts && n < |times|
    requires |times| <= limits.maxAttempts || |times| <= 1
    ensures Admits(limits, GuessOneByOne(limits, d, id, key, times[..n]).attempts, key, times[n])
  {
    GuessesAreCounted(limits, d, id, key, times[..n]);
    OneGuessMore(limits, GuessOneByOne(limits, d, id, key, times[..n]), id, key, n, times[n]);
  }

  /**
   A right password clears its client: from the sign-in on, the client has its whole limit again, so that many
   wrong passwords in a row, and one in any case, are admitted at whatever times; no other record changes.
   */
  lemma SignInRestoresTheLimit(limits: Limits, d: Desk, id: RequestId, key: Client, now: int, times: seq<int>)
    requires id in d.flight && d.flight[id] == key
    requires |times| <= limits.maxAttempts || |times| <= 1
    ensures var after := Step(limits, d, Settles(id, now, RightPassword));
            && (forall other :: other != key ==>
                  (other in after.attempts <==> other in d.attempts) &&
                  (other in d.attempts ==> after.attempts[other] == d.attempts[other]))
            && forall n :: 0 <= n < |times| ==>
                 Admits(limits, GuessOneByOne(limits, after, id, key, times[..n]).attempts, key, times[n])
  {
    var after := Step(limits, d, Settles(id, now, RightPassword));
    forall n | 0 <= n < |times|
      ensures Admits(limits, GuessOneByOne(limits, after, id, key, times[..n]).attempts, key, times[n])
    {
      FreshClientHasItsLimit(limits, after, id, key, times, n);
    }
  }

  // ---- Sessions ---------------------------------------------------------------------------------

  type SessionId = string

  datatype SessionEvent = Created(id: SessionId, now: int) | Asked(id: SessionId, now: int)
                        | Destroyed(id: SessionId)

  /** An expired session is dropped only when someone asks about it. */
  class SessionStore {
    const ttlMs: int
    var sessions: map<SessionId, int>
    /** Everything asked of the store so far. */
    ghost var history: seq<SessionEvent>

    ghost predicate Valid()
      reads this
    {
      ClockOk(history) && AllFaithful(sessions, history, ttlMs)
    }

    constructor (ttlMs: int)
      ensures Valid() && this.ttlMs == ttlMs && history == []
    {
      this.ttlMs := ttlMs;
      sessions := map[];
      history := [];
    }

    method Create(id: SessionId, now: int)
      requires Valid() && NotBefore(history, now)
      modifies this
      ensures Valid() && history == old(history) + [Created(id, now)]
    {
      SessionStep(sessions, history, ttlMs, Created(id, now));
      sessions := sessions[id := now + ttlMs];
      history := history + [Created(id, now)];
    }

    /** Answers as if nothing were ever evicted: created, not destroyed since, and not past its time. */
    method IsValid(id: SessionId, now: int) returns (r: bool)
      requires Valid() && NotBefore(history, now)
      modifies this
      ensures Valid() && history == old(history) + [Asked(id, now)]
      ensures r <==> Current(old(history), ttlMs, id, now)
    {
      ExpiryMeaning(history, ttlMs, id, now);
      assert Faithful(sessions, history, ttlMs, id);
      SessionStep(sessions, history, ttlMs, Asked(id, now));
      ghost var after := AfterEvent(sessions, ttlMs, Asked(id, now));
      history := history + [Asked(id, now)];
      if id !in sessions {
        assert sessions == after;
        return false;
      }
      if now > sessions[id] {
        sessions := sessions - {id};
        assert sessions == after;
        return false;
      }
      return true;
    }

    method Destroy(id: SessionId)
      requires Valid()
      modifies this
      ensures Valid() && history == old(history) + [Destroyed(id)]
    {
      SessionStep(sessions, history, ttlMs, Destroyed(id));
      sessions := sessions - {id};
      history := history + [Destroyed(id)];
    }
  }

  /** The latest clock reading of a history. */
  ghost function LatestTime(h: seq<SessionEvent>): Option<int> {
    if h == [] then None
    else if h[|h| - 1].Destroyed? then LatestTime(h[..|h| - 1])
    else Some(h[|h| - 1].now)
  }

  ghost predicate NotBefore(h: seq<SessionEvent>, now: int) {
    LatestTime(h).Some? ==> LatestTime(h).value <= now
  }

  ghost predicate ClockOk(h: seq<SessionEvent>) {
    h == [] || (ClockOk(h[..|h| - 1]) && (h[|h| - 1].Destroyed? || NotBefore(h[..|h| - 1], h[|h| - 1].now)))
  }

  /** When a session ends by the history alone, if it was created and not destroyed since. */
  ghost function Expiry(h: seq<SessionEvent>, ttlMs: int, id: SessionId): Option<int> {
    if h == [] then None
    else
      var e := h[|h| - 1];
      if e.id != id || e.Asked? then Expiry(h[..|h| - 1], ttlMs, id)
      else if e.Created? then Some(e.now + ttlMs)
      else None
  }

  /** Created, not destroyed or re-created since, and not past its time. */
  ghost predicate Current(h: seq<SessionEvent>, ttlMs: int, id: SessionId, now: int) {
    exists i ::
      && 0 <= i < |h| && h[i].Created? && h[i].id == id && now <= h[i].now + ttlMs
      && forall j :: i < j < |h| && h[j].id == id ==> h[j].Asked?
  }

  lemma CurrentStep(h: seq<SessionEvent>, ttlMs: int, id: SessionId, now: int, e: SessionEvent)
    ensures Current(h + [e], ttlMs, id, now) <==>
            if e.id != id || e.Asked? then Current(h, ttlMs, id, now)
            else e.Created? && now <= e.now + ttlMs
  {
    var g := h + [e];
    if e.id != id || e.Asked? {
      if Current(h, ttlMs, id, now) {
        var i :| 0 <= i < |h| && h[i].Created? && h[i].id == id && now <= h[i].now + ttlMs
                 && forall j :: i < j < |h| && h[j].id == id ==> h[j].Asked?;
        assert g[i] == h[i];
        assert forall j :: i < j < |g| && g[j].id == id ==> g[j].Asked?;
      }
      if Current(g, ttlMs, id, now) {
        var i :| 0 <= i < |g| && g[i].Created? && g[i].id == id && now <= g[i].now + ttlMs
                 && forall j :: i < j < |g| && g[j].id == id ==> g[j].Asked?;
        assert i < |h| && h[i] == g[i];
        assert forall j :: i < j < |h| && h[j].id == id ==> g[j] == h[j] && h[j].Asked?;
      }
    } else {
      assert g[|h|] == e;
      if e.Created? && now <= e.now + ttlMs {
        assert Current(g, ttlMs, id, now);
      }
    }
  }

  lemma {:induction false} ExpiryMeaning(h: seq<SessionEvent>, ttlMs: int, id: SessionId, now: int)
    ensures Current(h, ttlMs, id, now) <==>
            Expiry(h, ttlMs, id).Some? && now <= Expiry(h, ttlMs, id).value
  {
    if h != [] {
      ExpiryMeaning(h[..|h| - 1], ttlMs, id, now);
      CurrentStep(h[..|h| - 1], ttlMs, id, now, h[|h| - 1]);
      assert h == h[..|h| - 1] + [h[|h| - 1]];
    }
  }

  /** The table has the session's expiry, or has dropped it after the clock went past it. */
  ghost predicate Faithful(t: map<SessionId, int>, h: seq<SessionEvent>, ttlMs: int, id: SessionId) {
    var e := Expiry(h, ttlMs, id);
    if id in t then e == Some(t[id])
    else e.Some? ==> LatestTime(h).Some? && LatestTime(h).value > e.value
  }

  ghost predicate AllFaithful(t: map<SessionId, int>, h: seq<SessionEvent>, ttlMs: int) {
    forall id :: Faithful(t, h, ttlMs, id)
  }

  function AfterEvent(t: map<SessionId, int>, ttlMs: int, e: SessionEvent): map<SessionId, int> {
    match e
    case Created(id, now) => t[id := now + ttlMs]
    case Asked(id, now) => if id in t && now > t[id] then t - {id} else t
    case Destroyed(id) => t - {id}
  }

  lemma SessionStep(t: map<SessionId, int>, h: seq<SessionEvent>, ttlMs: int, e: SessionEvent)
    requires ClockOk(h) && (e.Destroyed? || NotBefore(h, e.now))
    requires AllFaithful(t, h, ttlMs)
    ensures ClockOk(h + [e])
    ensures AllFaithful(AfterEvent(t, ttlMs, e), h + [e], ttlMs)
  {
    var g := h + [e];
    assert g[..|g| - 1] == h;
    forall id ensures Faithful(AfterEvent(t, ttlMs, e), g, ttlMs, id) {
      assert Faithful(t, h, ttlMs, id);
    }
  }
}
