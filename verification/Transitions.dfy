/** What a change of state does to the statuses collected so far, for any sizes of the windows, and when
NODATA is left. */
module Transitions {
  import opened Wire
  import opened StateMachine
  import opened SlidingWindow
  import opened Reactions

  // ---- What a state inherits ----

  /** The states that collect statuses. */
  predicate Collects(cfg: Config, state: State)
  {
    state == INIT || state == VALID || state == INVALID || (state == NODATA && cfg.transitToInvalidExtended)
  }

  /** Whether the window is emptied on the way from one state to another. */
  predicate Emptied(cfg: Config, from: State, to: State)
  {
    to == INIT || (to == INVALID && cfg.clearToInvalid)
  }

  /** The window of the new state, the oldest status first, when the buffer holds w and the index is t.
      An emptied window is blank as far as the old one reached. One that grows, but not out of VALID,
      keeps the last slot of the old one and whatever lies beyond. Otherwise all is kept. */
  function Heritage(cfg: Config, from: State, to: State, w: seq<uint8>, t: nat): (s: seq<uint8>)
    requires 1 <= cfg.Size(from) <= |w| && cfg.Size(to) <= |w|
    requires t < cfg.Size(from) && (Emptied(cfg, from, to) || t < cfg.Size(to))
  {
    var a, b := cfg.Size(from), cfg.Size(to);
    if Emptied(cfg, from, to) then if b <= a then Blank(b) else Blank(a) + w[a..b]
    else if a < b && from != VALID then Blank(a - 1 - t) + w[a - 1..b] + Blank(t)
    else w[t..b] + w[..t]
  }

  lemma GrownRing(w: seq<uint8>, a: nat, b: nat, t: nat)
    requires t < a < b <= |w|
    ensures var u := Blank(a - 1) + w[a - 1..];
            u[t..b] + u[..t] == Blank(a - 1 - t) + w[a - 1..b] + Blank(t)
  {
    var u := Blank(a - 1) + w[a - 1..];
    assert u[t..b] == Blank(a - 1 - t) + w[a - 1..b];
    assert u[..t] == Blank(t);
  }

  lemma EmptiedRing(w: seq<uint8>, a: nat, b: nat)
    requires a <= |w| && b <= |w|
    ensures var u := Blank(a) + w[a..];
            u[0..b] + u[..0] == if b <= a then Blank(b) else Blank(a) + w[a..b]
  {
  }

  /** A change of state, but for the one that merely starts INIT in the earlier variant. */
  ghost predicate Changes(cfg: Config, m: Machine, status: uint8)
  {
    && m.Fits(cfg) && m.Legal(cfg) && Collects(cfg, m.state)
    && Step(cfg, m, status).state != m.state && Step(cfg, m, status).Legal(cfg)
  }

  /** What happens to the buffer and the index after the status was added. */
  lemma StepChanges(cfg: Config, m: Machine, status: uint8)
    requires Changes(cfg, m, status)
    ensures var a, r, n := Add(cfg, m, status), Step(cfg, m, status), cfg.Size(m.state);
            if Emptied(cfg, m.state, r.state) then r.top == 0 && r.window == Blank(n) + a.window[n..]
            else
              && r.top == a.top
              && r.window == if n < cfg.Size(r.state) && m.state != VALID then Blank(n - 1) + a.window[n - 1..]
                             else a.window
  {
  }

  /** The first window of the new state holds exactly the heritage. */
  lemma Handover(cfg: Config, m: Machine, status: uint8)
    requires Changes(cfg, m, status)
    ensures var r, n := Step(cfg, m, status), cfg.Size(m.state);
            var w, t := m.window[m.top := status], if m.top == n - 1 then 0 else m.top + 1;
            && r.top == (if Emptied(cfg, m.state, r.state) then 0 else t)
            && Unrolled(r, cfg.Size(r.state)) == Heritage(cfg, m.state, r.state, w, t)
  {
    StepChanges(cfg, m, status);
    var r, a := Step(cfg, m, status), Add(cfg, m, status);
    Inherited(cfg, m.state, r, a.window, a.top);
  }

  lemma Inherited(cfg: Config, from: State, r: Machine, w: seq<uint8>, t: nat)
    requires var n, b := cfg.Size(from), cfg.Size(r.state);
             && 1 <= n <= |w| && b <= |w| == |r.window| && t < n && r.top < b
             && if Emptied(cfg, from, r.state) then r.top == 0 && r.window == Blank(n) + w[n..]
                else
                  && r.top == t
                  && r.window == if n < b && from != VALID then Blank(n - 1) + w[n - 1..] else w
    ensures Unrolled(r, cfg.Size(r.state)) == Heritage(cfg, from, r.state, w, t)
  {
    if Emptied(cfg, from, r.state) {
      EmptiedRing(w, cfg.Size(from), cfg.Size(r.state));
    } else if cfg.Size(from) < cfg.Size(r.state) && from != VALID {
      GrownRing(w, cfg.Size(from), cfg.Size(r.state), t);
    }
  }

  // ---- What still counts ----

  /** All of ss is received in the state of m, and the window is not emptied. */
  ghost predicate Stays(cfg: Config, m: Machine, ss: seq<ProfileStatus>)
  {
    && m.Fits(cfg) && m.Legal(cfg) && (m.state == INIT || m.state == VALID || m.state == INVALID)
    && (forall k :: 0 <= k <= |ss| ==> Run(cfg, m, ss[..k]).state == m.state)
    && (m.state == INVALID && cfg.transitToInvalidExtended ==> P_ERROR !in ss)
  }

  lemma StaysStep(cfg: Config, m: Machine, s: ProfileStatus)
    requires m.Fits(cfg) && m.Legal(cfg) && (m.state == INIT || m.state == VALID || m.state == INVALID)
    requires Step(cfg, m, s).state == m.state
    requires m.state == INVALID && cfg.transitToInvalidExtended ==> s != P_ERROR
    ensures Step(cfg, m, s) == Add(cfg, m, s)
  {
  }

  lemma Slid(h: seq<uint8>, ss: seq<uint8>, s: uint8)
    requires h != []
    ensures (h + ss)[|ss|..][1..] + [s] == (h + (ss + [s]))[|ss| + 1..]
  {
    assert h + (ss + [s]) == (h + ss) + [s];
  }

  /** The window has moved on by ss. */
  ghost predicate MovedOn(cfg: Config, m: Machine, ss: seq<ProfileStatus>)
    requires m.Fits(cfg) && m.Legal(cfg)
  {
    var r, n := Run(cfg, m, ss), cfg.Size(m.state);
    && r.Fits(cfg) && r.Legal(cfg) && r.state == m.state
    && Unrolled(r, n) == (Unrolled(m, n) + ss)[|ss|..]
    && (ss != [] ==> r.ok == Count(Unrolled(r, n), P_OK) && r.error == Count(Unrolled(r, n), P_ERROR))
  }

  lemma MovedNowhere(cfg: Config, m: Machine)
    requires m.Fits(cfg) && m.Legal(cfg)
    ensures MovedOn(cfg, m, [])
  {
    assert (Unrolled(m, cfg.Size(m.state)) + [])[0..] == Unrolled(m, cfg.Size(m.state));
  }

  lemma PrefixSnoc(ss: seq<ProfileStatus>, n: nat)
    requires n < |ss|
    ensures ss[..n] + [ss[n]] == ss[..n + 1]
  {
  }

  lemma {:induction false} Slides(cfg: Config, m: Machine, ss: seq<ProfileStatus>, n: nat)
    requires Stays(cfg, m, ss) && n <= |ss|
    ensures MovedOn(cfg, m, ss[..n])
  {
    if n == 0 {
      MovedNowhere(cfg, m);
    } else {
      Slides(cfg, m, ss, n - 1);
      PrefixSnoc(ss, n - 1);
      SlidesOn(cfg, m, ss[..n - 1], ss[n - 1]);
    }
  }

  lemma SlidesOn(cfg: Config, m: Machine, ss: seq<ProfileStatus>, s: ProfileStatus)
    requires m.Fits(cfg) && m.Legal(cfg) && (m.state == INIT || m.state == VALID || m.state == INVALID)
    requires MovedOn(cfg, m, ss) && Run(cfg, m, ss + [s]).state == m.state
    requires m.state == INVALID && cfg.transitToInvalidExtended ==> s != P_ERROR
    ensures MovedOn(cfg, m, ss + [s])
  {
    var p := Run(cfg, m, ss);
    RunSnoc(cfg, m, ss, s);
    StaysStep(cfg, p, s);
    AddSlides(cfg, p, s);
    Slid(Unrolled(m, cfg.Size(m.state)), ss, s);
  }

  /** After a change of state the counts are those of the heritage followed by what was received since,
      as far as the window reaches. */
  lemma CountsAfterChange(cfg: Config, m: Machine, status: uint8, ss: seq<ProfileStatus>)
    requires Changes(cfg, m, status) && Stays(cfg, Step(cfg, m, status), ss) && ss != []
    ensures var r, n := Step(cfg, m, status), cfg.Size(m.state);
            var w, t := m.window[m.top := status], if m.top == n - 1 then 0 else m.top + 1;
            var counted := (Heritage(cfg, m.state, r.state, w, t) + ss)[|ss|..];
            && Run(cfg, r, ss).ok == Count(counted, P_OK) && Run(cfg, r, ss).error == Count(counted, P_ERROR)
  {
    Handover(cfg, m, status);
    Slides(cfg, Step(cfg, m, status), ss, |ss|);
    assert ss[..|ss|] == ss;
  }

  // ---- What CheckInit leaves behind ----

  /** What INIT will find beyond the window of the state before. */
  function Stale(cfg: Config, m: Machine): seq<uint8>
    requires cfg.Room(|m.window|)
  {
    if cfg.Size(m.state) < cfg.windowSizeInit then m.window[cfg.Size(m.state)..cfg.windowSizeInit] else []
  }

  /** CheckInit empties only the window of the state it finds, so that before R20-11 the first check in
      INIT also counts what lies beyond. */
  lemma StaleStart(cfg: Config, m: Machine, s: ProfileStatus)
    requires cfg.Proper() && cfg.Room(|m.window|) && !cfg.transitToInvalidExtended
    ensures var r := Add(cfg, Step(cfg, Initial(cfg, m), P_OK), s);
            && r.ok == (if s == P_OK then 1 else 0) + Count(Stale(cfg, m), P_OK)
            && r.error == (if s == P_ERROR then 1 else 0) + Count(Stale(cfg, m), P_ERROR)
  {
    var n, i := cfg.Size(m.state), cfg.windowSizeInit;
    var k := (if n < i then n else i) - 1;
    StaleAdd(cfg, m, s);
    StaleWindow(m.window, n, i, s, k, Stale(cfg, m));
    StaleCounts(s, k, Stale(cfg, m), P_OK);
    StaleCounts(s, k, Stale(cfg, m), P_ERROR);
  }

  lemma StaleAdd(cfg: Config, m: Machine, s: ProfileStatus)
    requires cfg.Proper() && cfg.Room(|m.window|) && !cfg.transitToInvalidExtended
    ensures var r, n := Add(cfg, Step(cfg, Initial(cfg, m), P_OK), s), cfg.Size(m.state);
            var w := (Blank(n) + m.window[n..])[0 := s][..cfg.windowSizeInit];
            r.ok == Count(w, P_OK) && r.error == Count(w, P_ERROR)
  {
  }

  lemma StaleWindow(w: seq<uint8>, n: nat, i: nat, s: uint8, k: nat, stale: seq<uint8>)
    requires 1 <= n <= |w| && 1 <= i <= |w| && k + 1 == (if n < i then n else i)
    requires stale == if n < i then w[n..i] else []
    ensures (Blank(n) + w[n..])[0 := s][..i] == [s] + Blank(k) + stale
  {
  }

  lemma StaleCounts(s: uint8, k: nat, stale: seq<uint8>, x: uint8)
    requires x != P_NOTAVAILABLE
    ensures Count([s] + Blank(k) + stale, x) == (if s == x then 1 else 0) + Count(stale, x)
  {
    CountConcat([s] + Blank(k), stale, x);
    CountBlank([s], k, x);
  }

  // ---- Leaving NODATA ----

  /** The statuses that do not start INIT. */
  ghost predicate Useless(ss: seq<ProfileStatus>)
  {
    forall k :: 0 <= k < |ss| ==> ss[k] == P_ERROR || ss[k] == P_NONEWDATA
  }

  /** The checks that the later variant waits in NODATA. */
  function Patience(cfg: Config): nat
  {
    if cfg.windowSizeInit < cfg.windowSizeInvalid then cfg.windowSizeInit else cfg.windowSizeInvalid
  }

  /** Before R20-11, NODATA is left on the first status other than ERROR and NONEWDATA, for INIT. */
  lemma {:induction false} NoDataBefore(cfg: Config, m: Machine, ss: seq<ProfileStatus>)
    requires cfg.Proper() && cfg.Room(|m.window|) && !cfg.transitToInvalidExtended
    ensures Run(cfg, Initial(cfg, m), ss).state == NODATA <==> Useless(ss)
    ensures ss != [] && Useless(ss[..|ss| - 1]) && !Useless(ss) ==> Run(cfg, Initial(cfg, m), ss).state == INIT
    ensures Run(cfg, Initial(cfg, m), ss).state == NODATA ==> Run(cfg, Initial(cfg, m), ss) == Initial(cfg, m)
  {
    if ss != [] {
      var init, s := ss[..|ss| - 1], ss[|ss| - 1];
      NoDataBefore(cfg, m, init);
      assert init + [s] == ss;
      var p := Run(cfg, Initial(cfg, m), init);
      if p.Fits(cfg) {
        StatesForward(cfg, p, s);
      }
    }
  }

  lemma {:induction false} Waiting(cfg: Config, m: Machine, ss: seq<ProfileStatus>)
    requires cfg.Proper() && cfg.Room(|m.window|) && cfg.transitToInvalidExtended
    requires Useless(ss) && |ss| < Patience(cfg)
    ensures var r := Run(cfg, Initial(cfg, m), ss); r.state == NODATA && r.top == |ss|
  {
    if ss != [] {
      Waiting(cfg, m, ss[..|ss| - 1]);
    }
  }

  /** From R20-11, NODATA is left for INVALID with the check that ends its patience, whatever that
      check reports; before, for INIT on the first status other than ERROR and NONEWDATA. */
  lemma NoDataExact(cfg: Config, m: Machine, lead: seq<ProfileStatus>, s: ProfileStatus)
    requires cfg.Proper() && cfg.Room(|m.window|) && cfg.transitToInvalidExtended
    requires Useless(lead) && |lead| < Patience(cfg)
    ensures Run(cfg, Initial(cfg, m), lead).state == NODATA
    ensures Run(cfg, Initial(cfg, m), lead + [s]).state
         == if |lead| + 1 == Patience(cfg) then INVALID
            else if s == P_ERROR || s == P_NONEWDATA then NODATA
            else INIT
  {
    Waiting(cfg, m, lead);
    RunSnoc(cfg, Initial(cfg, m), lead, s);
  }
}
