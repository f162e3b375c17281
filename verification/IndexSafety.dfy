/** When the window index stays inside the window of the current state.

A change of state keeps the index although it may shrink the window. Whether that can put the
index outside depends only on the three sizes and on the two flags, never on the limits. */
module IndexSafety {
  import opened Wire
  import opened Receiver
  import opened StateMachine
  import opened SlidingWindow

  /** INIT is entered at all. In the later variant a window of one slot is full at once. */
  predicate InitReached(cfg: Config)
  {
    !cfg.transitToInvalidExtended || cfg.windowSizeInvalid > 1
  }

  predicate SafeSizes(cfg: Config)
  {
    && (InitReached(cfg) ==> cfg.windowSizeInit <= cfg.windowSizeValid)
    && cfg.windowSizeInvalid <= cfg.windowSizeValid
    && (cfg.clearToInvalid || cfg.windowSizeInvalid == cfg.windowSizeValid)
  }

  function WithLimits(cfg: Config, valid: Limits, init: Limits, invalid: Limits): Config
  {
    cfg.(valid := valid, init := init, invalid := invalid)
  }

  // ---- Safe sizes keep the index legal ----

  ghost predicate Sound(cfg: Config, m: Machine)
  {
    && cfg.Proper() && cfg.Room(|m.window|) && m.Legal(cfg)
    && (m.state == NODATA && !cfg.transitToInvalidExtended ==> m.top == 0)
    && (m.state == INIT ==> InitReached(cfg))
  }

  lemma StepSound(cfg: Config, m: Machine, status: uint8)
    requires SafeSizes(cfg) && Sound(cfg, m)
    ensures m.Fits(cfg) && Sound(cfg, Step(cfg, m, status))
  {
  }

  /** A step writes nothing outside the window it finds. */
  lemma StepInside(cfg: Config, m: Machine, status: uint8)
    requires m.Fits(cfg) && m.Legal(cfg)
    ensures var n := cfg.Size(m.state); Step(cfg, m, status).window[n..] == m.window[n..]
  {
  }

  lemma {:induction false} RunSound(cfg: Config, m: Machine, ss: seq<ProfileStatus>)
    requires SafeSizes(cfg) && cfg.Proper() && cfg.Room(|m.window|)
    ensures Sound(cfg, Run(cfg, Initial(cfg, m), ss))
  {
    if ss != [] {
      RunSound(cfg, m, ss[..|ss| - 1]);
      StepSound(cfg, Run(cfg, Initial(cfg, m), ss[..|ss| - 1]), ss[|ss| - 1]);
    }
  }

  // ---- Other sizes do not ----

  const TOLERANT := Limits(0, 255)
  const EAGER := Limits(1, 255)
  const FRAGILE := Limits(0, 0)

  function Fresh(cfg: Config): (m: Machine)
    ensures cfg.Room(|m.window|)
  {
    Machine(Blank(255), 0, 0, 0, DEINIT)
  }

  /** While x does not occur, repeated messages do not change the state. */
  predicate Calm(cfg: Config, state: State, x: uint8)
  {
    || (state == VALID && x == P_ERROR && cfg.valid == FRAGILE)
    || (state == INVALID && x == P_OK && cfg.invalid == EAGER)
    || (state == INIT && x == P_OK && cfg.init == EAGER && cfg.windowSizeInit >= 2)
  }

  lemma NoneCounted(w: seq<uint8>, n: nat, x: uint8)
    requires n <= |w| && x !in w
    ensures Count(w[..n], x) == 0
  {
    assert x !in w[..n];
  }

  lemma NeverHopeless(cfg: Config, top: nat, ok: nat)
    requires cfg.Proper() && cfg.init == EAGER && cfg.windowSizeInit >= 2 && top < cfg.windowSizeInit
    ensures !Hopeless(cfg, top, ok)
  {
    if top > 0 {
      ModUnique(top - 1, 0, top - 1, cfg.windowSizeInit);
    } else {
      ModUnique(1, 0, 1, cfg.windowSizeInit);
    }
  }

  lemma CalmStep(cfg: Config, m: Machine, x: uint8)
    requires m.Fits(cfg) && m.Legal(cfg) && x !in m.window && Calm(cfg, m.state, x)
    ensures var r := Step(cfg, m, P_REPEATED);
            && r.state == m.state && x !in r.window
            && r.top == (if m.top == cfg.Size(m.state) - 1 then 0 else m.top + 1)
  {
    var w, n := m.window[m.top := P_REPEATED], cfg.Size(m.state);
    assert x !in w;
    NoneCounted(w, n, x);
    if m.state == INIT {
      NeverHopeless(cfg, Next(m.top, n), 0);
    }
  }

  /** Repeated messages move the index anywhere in the window. */
  lemma {:induction false} Wind(cfg: Config, m: Machine, x: uint8, t: nat) returns (ss: seq<ProfileStatus>)
    requires cfg.Proper() && cfg.Room(|m.window|) && m.Legal(cfg) && x !in m.window && Calm(cfg, m.state, x)
    requires t < cfg.Size(m.state)
    ensures var r := Run(cfg, m, ss); r.state == m.state && r.top == t && x !in r.window
    decreases if m.top <= t then t - m.top else t - m.top + cfg.Size(m.state)
  {
    if m.top == t {
      ss := [];
    } else {
      CalmStep(cfg, m, x);
      var r := Step(cfg, m, P_REPEATED);
      var rest := Wind(cfg, r, x, t);
      ss := [P_REPEATED] + rest;
      RunConcat(cfg, m, [P_REPEATED], rest);
      assert Run(cfg, m, [P_REPEATED]) == r;
    }
  }

  lemma RunOne(cfg: Config, m: Machine, s: ProfileStatus)
    requires m.Fits(cfg)
    ensures Run(cfg, m, [s]) == Step(cfg, m, s)
  {
  }

  /** A status that moves the machine to a smaller window while the index is at its end. */
  lemma Escape(cfg: Config, m: Machine, s: ProfileStatus, x: uint8, next: State) returns (ss: seq<ProfileStatus>)
    requires cfg.Proper() && cfg.Room(|m.window|) && m.Legal(cfg) && x !in m.window && Calm(cfg, m.state, x)
    requires cfg.Size(next) < cfg.Size(m.state) && s == x
    requires next == if m.state == VALID then INVALID else VALID
    requires m.state == VALID ==> !cfg.clearToInvalid
    ensures !Run(cfg, m, ss).Legal(cfg)
  {
    var t := cfg.Size(next) - 1;
    var winding := Wind(cfg, m, x, t);
    var r := Run(cfg, m, winding);
    ss := winding + [s];
    RunConcat(cfg, m, winding, [s]);
    RunOne(cfg, r, s);
    var w, n := r.window[r.top := s], cfg.Size(r.state);
    assert w[..n][r.top] == s;
    assert Count(w[..n], s) > 0;
  }

  lemma FromInit(cfg: Config) returns (ss: seq<ProfileStatus>)
    requires cfg.Proper() && InitReached(cfg) && cfg.windowSizeInit > cfg.windowSizeValid && cfg.init == EAGER
    ensures !Run(cfg, Initial(cfg, Fresh(cfg)), ss).Legal(cfg)
  {
    var m := Initial(cfg, Fresh(cfg));
    RunOne(cfg, m, P_REPEATED);
    var r := Run(cfg, m, [P_REPEATED]);
    assert r.state == INIT && r.top == 0 && P_OK !in r.window;
    var rest := Escape(cfg, r, P_OK, P_OK, VALID);
    ss := [P_REPEATED] + rest;
    RunConcat(cfg, m, [P_REPEATED], rest);
  }

  lemma TwoSteps(cfg: Config, m: Machine, s: ProfileStatus, s': ProfileStatus)
    requires m.Fits(cfg) && Step(cfg, m, s).Fits(cfg)
    ensures Run(cfg, m, [s, s']) == Step(cfg, Step(cfg, m, s), s')
  {
    RunOne(cfg, m, s);
    RunOne(cfg, Step(cfg, m, s), s');
    RunConcat(cfg, m, [s], [s']);
    assert [s] + [s'] == [s, s'];
  }

  lemma BlankedAbsent(w: seq<uint8>, n: nat, x: uint8)
    requires n <= |w| && x !in w && x != P_NOTAVAILABLE
    ensures x !in Blank(n) + w[n..]
  {
  }

  lemma Absent(cfg: Config, m: Machine, s: uint8, x: uint8)
    requires m.Fits(cfg) && x !in m.window && s != x && x != P_NOTAVAILABLE
    ensures x !in Step(cfg, m, s).window
  {
    var a, n := Add(cfg, m, s), cfg.Size(m.state);
    assert x !in a.window;
    BlankedAbsent(a.window, n, x);
    BlankedAbsent(a.window, n - 1, x);
    assert x !in Clear(cfg, a).window;
    assert x !in ClearRemaining(cfg, a, VALID).window;
    assert x !in ClearRemaining(cfg, a, INVALID).window;
    assert x !in Promote(cfg, a).window && x !in Reject(cfg, a).window && x !in Demote(cfg, a).window;
    StepWindow(cfg, m, s);
  }

  lemma StepWindow(cfg: Config, m: Machine, s: uint8)
    requires m.Fits(cfg)
    ensures var r, a := Step(cfg, m, s), Add(cfg, m, s);
            r.window in {m.window, a.window, Clear(cfg, a).window,
                         Promote(cfg, a).window, Reject(cfg, a).window, Demote(cfg, a).window}
  {
  }

  /** After the first message: in INIT, or already in INVALID. */
  lemma FirstStep(cfg: Config)
    requires cfg.Proper()
    ensures var m := Initial(cfg, Fresh(cfg));
            && m.Fits(cfg)
            && var r := Step(cfg, m, P_REPEATED);
            && P_OK !in r.window && P_ERROR !in r.window
            && (|| (r.state == INIT && r.top == 0 && InitReached(cfg))
                || (r.state == INVALID && r.top <= 1 && r.Legal(cfg)))
  {
    var m := Initial(cfg, Fresh(cfg));
    Absent(cfg, m, P_REPEATED, P_OK);
    Absent(cfg, m, P_REPEATED, P_ERROR);
  }

  /** An error takes it to INVALID from either. */
  lemma SecondStepInvalid(cfg: Config, m: Machine)
    requires m.Fits(cfg) && m.top <= 1 && m.Legal(cfg) && (m.state == INIT || m.state == INVALID) && P_OK !in m.window
    requires cfg.init == Limits(1, 0) && cfg.invalid == EAGER && cfg.windowSizeInvalid >= 2
    requires m.state == INIT ==> m.top == 0
    requires m.state == INVALID ==> cfg.transitToInvalidExtended
    ensures var r := Step(cfg, m, P_ERROR);
            r.state == INVALID && r.top <= 1 && P_OK !in r.window
  {
    Absent(cfg, m, P_ERROR, P_OK);
    var w, n := m.window[m.top := P_ERROR], cfg.Size(m.state);
    assert P_OK !in w;
    NoneCounted(w, n, P_OK);
    assert w[..n][m.top] == P_ERROR;
    assert Count(w[..n], P_ERROR) > 0;
  }

  /** A tolerant machine enters VALID from either. */
  lemma SecondStepValid(cfg: Config, m: Machine)
    requires m.Fits(cfg) && m.Legal(cfg) && (m.state == INIT || m.state == INVALID) && P_ERROR !in m.window
    requires cfg.init == TOLERANT && cfg.invalid == TOLERANT
    ensures var r := Step(cfg, m, P_REPEATED);
            r.state == VALID && r.top < cfg.Size(m.state) && P_ERROR !in r.window
  {
    Absent(cfg, m, P_REPEATED, P_ERROR);
    var w, n := m.window[m.top := P_REPEATED], cfg.Size(m.state);
    assert P_ERROR !in w;
    NoneCounted(w, n, P_ERROR);
  }

  lemma ReachInvalid(cfg: Config) returns (ss: seq<ProfileStatus>)
    requires cfg.Proper() && cfg.windowSizeInvalid >= 2 && cfg.init == Limits(1, 0) && cfg.invalid == EAGER
    ensures var r := Run(cfg, Initial(cfg, Fresh(cfg)), ss);
            r.state == INVALID && r.Legal(cfg) && P_OK !in r.window
  {
    FirstStep(cfg);
    var m := Initial(cfg, Fresh(cfg));
    var r := Step(cfg, m, P_REPEATED);
    SecondStepInvalid(cfg, r);
    TwoSteps(cfg, m, P_REPEATED, P_ERROR);
    ss := [P_REPEATED, P_ERROR];
  }

  lemma ReachValid(cfg: Config) returns (ss: seq<ProfileStatus>)
    requires cfg.Proper() && cfg.windowSizeInvalid <= cfg.windowSizeValid
    requires cfg.windowSizeInit <= cfg.windowSizeValid || !InitReached(cfg)
    requires cfg.init == TOLERANT && cfg.invalid == TOLERANT
    ensures var r := Run(cfg, Initial(cfg, Fresh(cfg)), ss);
            r.state == VALID && r.Legal(cfg) && P_ERROR !in r.window
  {
    FirstStep(cfg);
    var m := Initial(cfg, Fresh(cfg));
    var r := Step(cfg, m, P_REPEATED);
    SecondStepValid(cfg, r);
    TwoSteps(cfg, m, P_REPEATED, P_REPEATED);
    ss := [P_REPEATED, P_REPEATED];
  }

  lemma FromInvalid(cfg: Config) returns (ss: seq<ProfileStatus>)
    requires cfg.Proper() && cfg.windowSizeInvalid > cfg.windowSizeValid
    requires cfg.init == Limits(1, 0) && cfg.invalid == EAGER
    ensures !Run(cfg, Initial(cfg, Fresh(cfg)), ss).Legal(cfg)
  {
    var head := ReachInvalid(cfg);
    var m := Initial(cfg, Fresh(cfg));
    var rest := Escape(cfg, Run(cfg, m, head), P_OK, P_OK, VALID);
    RunConcat(cfg, m, head, rest);
    ss := head + rest;
  }

  lemma FromValid(cfg: Config) returns (ss: seq<ProfileStatus>)
    requires cfg.Proper() && !cfg.clearToInvalid && cfg.windowSizeValid > cfg.windowSizeInvalid
    requires cfg.windowSizeInit <= cfg.windowSizeValid || !InitReached(cfg)
    requires cfg.init == TOLERANT && cfg.invalid == TOLERANT && cfg.valid == FRAGILE
    ensures !Run(cfg, Initial(cfg, Fresh(cfg)), ss).Legal(cfg)
  {
    var head := ReachValid(cfg);
    var m := Initial(cfg, Fresh(cfg));
    var rest := Escape(cfg, Run(cfg, m, head), P_ERROR, P_ERROR, INVALID);
    RunConcat(cfg, m, head, rest);
    ss := head + rest;
  }

  // ---- The exact condition ----

  ghost predicate AlwaysLegal(cfg: Config, m: Machine)
    requires cfg.Room(|m.window|)
  {
    forall ss :: Run(cfg, Initial(cfg, m), ss).Legal(cfg)
  }

  /** The index stays legal in every run, for all limits and all initial contents, if and only if
      the sizes are safe. */
  lemma IndexSafe(cfg: Config)
    requires cfg.Proper()
    ensures SafeSizes(cfg) <==>
      forall v, i, d, m: Machine :: cfg.Room(|m.window|) ==> AlwaysLegal(WithLimits(cfg, v, i, d), m)
  {
    if SafeSizes(cfg) {
      forall v, i, d, m: Machine, ss | cfg.Room(|m.window|)
        ensures var c := WithLimits(cfg, v, i, d); Run(c, Initial(c, m), ss).Legal(c)
      {
        RunSound(WithLimits(cfg, v, i, d), m, ss);
      }
    } else {
      var c, ss := Counterexample(cfg);
      assert !AlwaysLegal(c, Fresh(c));
    }
  }

  /** Limits and a run that take the index outside. */
  lemma Counterexample(cfg: Config) returns (c: Config, ss: seq<ProfileStatus>)
    requires cfg.Proper() && !SafeSizes(cfg)
    ensures c == WithLimits(cfg, c.valid, c.init, c.invalid)
    ensures !Run(c, Initial(c, Fresh(c)), ss).Legal(c)
  {
    if InitReached(cfg) && cfg.windowSizeInit > cfg.windowSizeValid {
      c := WithLimits(cfg, FRAGILE, EAGER, EAGER);
      ss := FromInit(c);
    } else if cfg.windowSizeInvalid > cfg.windowSizeValid {
      c := WithLimits(cfg, FRAGILE, Limits(1, 0), EAGER);
      ss := FromInvalid(c);
    } else {
      c := WithLimits(cfg, FRAGILE, TOLERANT, TOLERANT);
      ss := FromValid(c);
    }
  }
}
