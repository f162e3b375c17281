/** How fast the state machine reacts: bounded detection of errors, bounded recovery, and the early
exit from INIT. All results hold for any legal index and any contents of the window. */
module Reactions {
  import opened Wire
  import opened Receiver
  import opened StateMachine
  import opened SlidingWindow

  function Repeat(s: ProfileStatus, k: nat): (ss: seq<ProfileStatus>)
    ensures |ss| == k
  {
    seq(k, _ => s)
  }

  lemma RunCons(cfg: Config, m: Machine, s: ProfileStatus, k: nat)
    requires m.Fits(cfg)
    ensures Run(cfg, m, Repeat(s, k + 1)) == Run(cfg, Step(cfg, m, s), Repeat(s, k))
  {
    assert Repeat(s, k + 1) == [s] + Repeat(s, k);
    RunConcat(cfg, m, [s], Repeat(s, k));
    assert Run(cfg, m, [s]) == Step(cfg, m, s);
  }

  // ---- The newest statuses of a window ----

  /** The newest j statuses of the window are x. */
  ghost predicate Newest(m: Machine, n: nat, x: uint8, j: nat)
    requires m.top < n <= |m.window|
  {
    j <= n && forall i :: n - j <= i < n ==> Unrolled(m, n)[i] == x
  }

  lemma NewestGrows(cfg: Config, m: Machine, x: uint8, j: nat)
    requires m.Fits(cfg) && m.Legal(cfg) && j < cfg.Size(m.state) && Newest(m, cfg.Size(m.state), x, j)
    ensures var a := Add(cfg, m, x); a.Legal(cfg) && Newest(a, cfg.Size(m.state), x, j + 1)
  {
    AddSlides(cfg, m, x);
  }

  lemma {:induction false} CountNewest(s: seq<uint8>, x: uint8, j: nat)
    requires j <= |s| && forall i :: |s| - j <= i < |s| ==> s[i] == x
    ensures Count(s, x) >= j
  {
    if j > 0 {
      CountNewest(s[..|s| - 1], x, j - 1);
      assert s == s[..|s| - 1] + [x];
    }
  }

  lemma CountOthers(s: seq<uint8>, x: uint8, y: uint8)
    requires forall i :: 0 <= i < |s| ==> s[i] == x
    ensures x != y ==> Count(s, y) == 0
  {
  }

  lemma {:induction false} CountBound(s: seq<uint8>, x: uint8)
    ensures Count(s, x) <= |s|
  {
    if s != [] {
      CountBound(s[..|s| - 1], x);
      assert s == s[..|s| - 1] + [s[|s| - 1]];
    }
  }

  /** Another x is counted, and when the window is full of x nothing else is. */
  lemma AddNewest(cfg: Config, m: Machine, x: uint8, j: nat)
    requires m.Fits(cfg) && m.Legal(cfg) && j < cfg.Size(m.state) && Newest(m, cfg.Size(m.state), x, j)
    ensures var a, n := Add(cfg, m, x), cfg.Size(m.state);
            && a.Legal(cfg) && Newest(a, n, x, j + 1)
            && (x == P_ERROR ==> a.error >= j + 1 && (j + 1 == n ==> a.ok == 0))
            && (x == P_OK ==> a.ok >= j + 1 && (j + 1 == n ==> a.error == 0))
  {
    var a, n := Add(cfg, m, x), cfg.Size(m.state);
    NewestGrows(cfg, m, x, j);
    AddSlides(cfg, m, x);
    CountNewest(Unrolled(a, n), x, j + 1);
    if j + 1 == n {
      CountOthers(Unrolled(a, n), x, if x == P_OK then P_ERROR else P_OK);
    }
  }

  // ---- Detection ----

  /** VALID is left for INVALID after so many errors in a row. */
  function DetectionTime(cfg: Config): nat
  {
    if cfg.valid.maxError < cfg.windowSizeValid then cfg.valid.maxError + 1 else cfg.windowSizeValid
  }

  lemma {:induction false} DetectFrom(cfg: Config, m: Machine, j: nat) returns (k: nat)
    requires cfg.Proper() && cfg.Room(|m.window|) && m.Legal(cfg) && m.state == VALID
    requires cfg.valid.maxError < cfg.windowSizeValid || cfg.valid.minOk > 0
    requires j < DetectionTime(cfg) && Newest(m, cfg.windowSizeValid, P_ERROR, j)
    ensures 1 <= k <= DetectionTime(cfg) - j && Run(cfg, m, Repeat(P_ERROR, k)).state == INVALID
    decreases DetectionTime(cfg) - j
  {
    var a := Add(cfg, m, P_ERROR);
    AddNewest(cfg, m, P_ERROR, j);
    if cfg.valid.Met(a.ok, a.error) {
      var rest := DetectFrom(cfg, a, j + 1);
      RunCons(cfg, m, P_ERROR, rest);
      k := rest + 1;
    } else {
      RunCons(cfg, m, P_ERROR, 0);
      k := 1;
    }
  }

  lemma {:induction false} NeverDetects(cfg: Config, m: Machine, ss: seq<ProfileStatus>)
    requires cfg.Proper() && cfg.Room(|m.window|) && m.Legal(cfg) && m.state == VALID
    requires cfg.valid.maxError >= cfg.windowSizeValid && cfg.valid.minOk == 0
    ensures Run(cfg, m, ss).state == VALID && Run(cfg, m, ss).Legal(cfg)
  {
    if ss != [] {
      NeverDetects(cfg, m, ss[..|ss| - 1]);
      var p := Run(cfg, m, ss[..|ss| - 1]);
      var a := Add(cfg, p, ss[|ss| - 1]);
      AddSlides(cfg, p, ss[|ss| - 1]);
      CountBound(Unrolled(a, cfg.windowSizeValid), P_ERROR);
    }
  }

  /** Bounded detection, in both variants: consecutive errors lead from VALID to INVALID in
      at most DetectionTime steps, unless the limits keep the machine in VALID for ever. */
  lemma Detection(cfg: Config, m: Machine)
    requires cfg.Proper() && cfg.Room(|m.window|) && m.Legal(cfg) && m.state == VALID
    ensures cfg.valid.maxError < cfg.windowSizeValid || cfg.valid.minOk > 0 <==>
      exists k :: 1 <= k <= DetectionTime(cfg) && Run(cfg, m, Repeat(P_ERROR, k)).state == INVALID
  {
    if cfg.valid.maxError < cfg.windowSizeValid || cfg.valid.minOk > 0 {
      var k := DetectFrom(cfg, m, 0);
    } else {
      forall k: nat
        ensures Run(cfg, m, Repeat(P_ERROR, k)).state == VALID
      {
        NeverDetects(cfg, m, Repeat(P_ERROR, k));
      }
    }
  }

  // ---- Recovery ----

  lemma {:induction false} RecoverFrom(cfg: Config, m: Machine, j: nat) returns (k: nat)
    requires cfg.Proper() && cfg.Room(|m.window|) && m.Legal(cfg) && m.state == INVALID
    requires cfg.invalid.minOk <= cfg.windowSizeInvalid
    requires j < cfg.windowSizeInvalid && Newest(m, cfg.windowSizeInvalid, P_OK, j)
    ensures 1 <= k <= cfg.windowSizeInvalid - j && Run(cfg, m, Repeat(P_OK, k)).state == VALID
    decreases cfg.windowSizeInvalid - j
  {
    var a := Add(cfg, m, P_OK);
    AddNewest(cfg, m, P_OK, j);
    if cfg.invalid.Met(a.ok, a.error) {
      RunCons(cfg, m, P_OK, 0);
      k := 1;
    } else {
      var rest := RecoverFrom(cfg, a, j + 1);
      RunCons(cfg, m, P_OK, rest);
      k := rest + 1;
    }
  }

  lemma {:induction false} NeverRecovers(cfg: Config, m: Machine, ss: seq<ProfileStatus>)
    requires cfg.Proper() && cfg.Room(|m.window|) && m.Legal(cfg) && m.state == INVALID
    requires cfg.invalid.minOk > cfg.windowSizeInvalid
    ensures Run(cfg, m, ss).state == INVALID && Run(cfg, m, ss).Legal(cfg)
  {
    if ss != [] {
      NeverRecovers(cfg, m, ss[..|ss| - 1]);
      var p := Run(cfg, m, ss[..|ss| - 1]);
      var a := Add(cfg, p, ss[|ss| - 1]);
      AddSlides(cfg, p, ss[|ss| - 1]);
      CountBound(Unrolled(a, cfg.windowSizeInvalid), P_OK);
    }
  }

  /** Bounded recovery, in both variants: a window full of OKs at the latest leads from INVALID to
      VALID, unless the limit asks for more OKs than the window holds. */
  lemma Recovery(cfg: Config, m: Machine)
    requires cfg.Proper() && cfg.Room(|m.window|) && m.Legal(cfg) && m.state == INVALID
    ensures cfg.invalid.minOk <= cfg.windowSizeInvalid <==>
      exists k :: 1 <= k <= cfg.windowSizeInvalid && Run(cfg, m, Repeat(P_OK, k)).state == VALID
  {
    if cfg.invalid.minOk <= cfg.windowSizeInvalid {
      var k := RecoverFrom(cfg, m, 0);
    } else {
      forall k: nat
        ensures Run(cfg, m, Repeat(P_OK, k)).state == INVALID
      {
        NeverRecovers(cfg, m, Repeat(P_OK, k));
      }
    }
  }

  // ---- The early exit from INIT ----

  /** INIT after the statuses h, none of them overwritten yet. */
  ghost predicate FirstLap(cfg: Config, m: Machine, h: seq<uint8>)
  {
    && m.Fits(cfg) && m.state == INIT
    && |h| < cfg.windowSizeInit && m.top == |h|
    && m.window[..cfg.windowSizeInit] == h + Blank(cfg.windowSizeInit - |h|)
  }

  /** No way of filling the remaining slots reaches the number of OKs that VALID takes. */
  ghost predicate Lost(cfg: Config, h: seq<uint8>)
  {
    forall fill: seq<uint8> :: |h + fill| == cfg.windowSizeInit ==> Count(h + fill, P_OK) < cfg.init.minOk
  }

  lemma CountBlank(h: seq<uint8>, k: nat, x: uint8)
    requires x != P_NOTAVAILABLE
    ensures Count(h + Blank(k), x) == Count(h, x)
  {
    CountConcat(h, Blank(k), x);
    CountOthers(Blank(k), P_NOTAVAILABLE, x);
  }

  lemma LostMeans(cfg: Config, h: seq<uint8>)
    requires |h| <= cfg.windowSizeInit
    ensures Lost(cfg, h) <==> Count(h, P_OK) + (cfg.windowSizeInit - |h|) < cfg.init.minOk
  {
    var best: seq<uint8> := Repeat(P_OK, cfg.windowSizeInit - |h|);
    CountConcat(h, best, P_OK);
    CountNewest(best, P_OK, |best|);
    CountBound(best, P_OK);
    assert |h + best| == cfg.windowSizeInit;
    forall fill: seq<uint8> | |h + fill| == cfg.windowSizeInit
      ensures Count(h + fill, P_OK) <= Count(h, P_OK) + (cfg.windowSizeInit - |h|)
    {
      CountConcat(h, fill, P_OK);
      CountBound(fill, P_OK);
    }
  }

  /** In the later variant INIT starts with an empty window, if INVALID's is not smaller. */
  lemma InitStartsBlank(cfg: Config, m: Machine, status: uint8)
    requires m.Fits(cfg) && m.state == NODATA && cfg.transitToInvalidExtended
    requires cfg.windowSizeInit <= cfg.windowSizeInvalid
    requires Step(cfg, m, status).state == INIT
    ensures FirstLap(cfg, Step(cfg, m, status), [])
  {
    var r := Step(cfg, m, status);
    assert r.window[..cfg.windowSizeInit] == Blank(cfg.windowSizeInit);
  }

  lemma BlankFilled(h: seq<uint8>, n: nat, status: uint8)
    requires |h| < n
    ensures (h + Blank(n - |h|))[|h| := status] == h + [status] + Blank(n - |h| - 1)
  {
  }

  lemma LapAdd(cfg: Config, m: Machine, h: seq<uint8>, status: uint8)
    requires FirstLap(cfg, m, h)
    ensures var a, h' := Add(cfg, m, status), h + [status];
            && a.ok == Count(h', P_OK) && a.error == Count(h', P_ERROR)
            && a.top == (if |h'| == cfg.windowSizeInit then 0 else |h'|)
            && a.window[..cfg.windowSizeInit] == h' + Blank(cfg.windowSizeInit - |h'|)
  {
    var a, h', n := Add(cfg, m, status), h + [status], cfg.windowSizeInit;
    assert a.window[..n] == m.window[..n][|h| := status];
    BlankFilled(h, n, status);
    CountBlank(h', n - |h'|, P_OK);
    CountBlank(h', n - |h'|, P_ERROR);
  }

  lemma HopelessInLap(cfg: Config, top: nat, ok: nat)
    requires cfg.Proper() && top < cfg.windowSizeInit
    ensures top > 0 ==> (Hopeless(cfg, top, ok) <==> ok + (cfg.windowSizeInit - top) < cfg.init.minOk)
    ensures top == 0 && cfg.windowSizeInit > 1 ==>
      (Hopeless(cfg, top, ok) <==> ok + cfg.windowSizeInit < cfg.init.minOk)
    ensures top == 0 && cfg.windowSizeInit == 1 ==> (Hopeless(cfg, top, ok) <==> ok < cfg.init.minOk)
  {
    if top > 0 {
      ModUnique(top - 1, 0, top - 1, cfg.windowSizeInit);
    } else if cfg.windowSizeInit > 1 {
      ModUnique(1, 0, 1, cfg.windowSizeInit);
    }
  }

  /** Before the window is full, the early exit is taken exactly when VALID is out of reach. */
  lemma EarlyExitExact(cfg: Config, m: Machine, h: seq<uint8>, status: uint8)
    requires FirstLap(cfg, m, h) && cfg.transitToInvalidExtended && |h| + 1 < cfg.windowSizeInit
    ensures var h' := h + [status];
            Step(cfg, m, status).state == INVALID <==> Count(h', P_ERROR) > cfg.init.maxError || Lost(cfg, h')
  {
    var h' := h + [status];
    LapAdd(cfg, m, h, status);
    LostMeans(cfg, h');
    HopelessInLap(cfg, |h'|, Count(h', P_OK));
  }

  /** When the last slot is filled the remainder is negative: a window of more than one slot is
      usually not given up although VALID was missed. */
  lemma LapEnd(cfg: Config, m: Machine, h: seq<uint8>, status: uint8)
    requires FirstLap(cfg, m, h) && cfg.transitToInvalidExtended && |h| + 1 == cfg.windowSizeInit
    ensures var h' := h + [status];
            && (Lost(cfg, h') <==> Count(h', P_OK) < cfg.init.minOk)
            && (Step(cfg, m, status).state == INVALID <==>
                  || Count(h', P_ERROR) > cfg.init.maxError
                  || (Lost(cfg, h') && cfg.windowSizeInit == 1)
                  || Count(h', P_OK) + cfg.windowSizeInit < cfg.init.minOk)
  {
    var h' := h + [status];
    LapAdd(cfg, m, h, status);
    LostMeans(cfg, h');
    HopelessInLap(cfg, 0, Count(h', P_OK));
  }

  /** Until it leaves INIT the machine goes on through the first lap. */
  lemma LapGoesOn(cfg: Config, m: Machine, h: seq<uint8>, status: uint8)
    requires FirstLap(cfg, m, h) && |h| + 1 < cfg.windowSizeInit && Step(cfg, m, status).state == INIT
    ensures FirstLap(cfg, Step(cfg, m, status), h + [status])
  {
    LapAdd(cfg, m, h, status);
  }

  lemma StatesForward(cfg: Config, m: Machine, status: uint8)
    requires m.Fits(cfg)
    ensures Step(cfg, m, status).state == NODATA ==> m.state == NODATA
    ensures Step(cfg, m, status).state == INIT ==> m.state == INIT || m.state == NODATA
  {
  }

  lemma LapStep(cfg: Config, m: Machine, h: seq<uint8>, s: ProfileStatus)
    requires m.state != NODATA && (m.state == INIT ==> FirstLap(cfg, m, h)) && |h| + 1 < cfg.windowSizeInit
    ensures var r := if m.Fits(cfg) then Step(cfg, m, s) else m;
            r.state != NODATA && (r.state == INIT ==> FirstLap(cfg, r, h + [s]))
  {
    if m.Fits(cfg) {
      StatesForward(cfg, m, s);
      if Step(cfg, m, s).state == INIT {
        LapGoesOn(cfg, m, h, s);
      }
    }
  }

  lemma {:induction false} LapRun(cfg: Config, m: Machine, ss: seq<ProfileStatus>)
    requires FirstLap(cfg, m, []) && |ss| < cfg.windowSizeInit
    ensures Run(cfg, m, ss).state != NODATA
    ensures Run(cfg, m, ss).state == INIT ==> FirstLap(cfg, Run(cfg, m, ss), ss)
  {
    if ss != [] {
      var init, s := ss[..|ss| - 1], ss[|ss| - 1];
      LapRun(cfg, m, init);
      assert init + [s] == ss;
      LapStep(cfg, Run(cfg, m, init), init, s);
    }
  }

  /** The early exit in a run: from an empty window, INIT is left for INVALID on the first status
      that makes too many errors or puts VALID out of reach. */
  lemma EarlyExit(cfg: Config, m: Machine, ss: seq<ProfileStatus>, s: ProfileStatus)
    requires FirstLap(cfg, m, []) && cfg.transitToInvalidExtended && |ss| + 1 < cfg.windowSizeInit
    requires Run(cfg, m, ss).state == INIT
    ensures Run(cfg, m, ss + [s]).state == INVALID <==>
      Count(ss + [s], P_ERROR) > cfg.init.maxError || Lost(cfg, ss + [s])
  {
    LapRun(cfg, m, ss);
    EarlyExitExact(cfg, Run(cfg, m, ss), ss, s);
    assert (ss + [s])[..|ss + [s]| - 1] == ss;
  }

  lemma {:induction false} NoDataFits(cfg: Config, m: Machine, lead: seq<ProfileStatus>)
    requires cfg.Proper() && cfg.Room(|m.window|) && Run(cfg, Initial(cfg, m), lead).state == NODATA
    ensures Run(cfg, Initial(cfg, m), lead).top < cfg.windowSizeInvalid
  {
    if lead != [] {
      var p := Run(cfg, Initial(cfg, m), lead[..|lead| - 1]);
      if p.Fits(cfg) {
        StatesForward(cfg, p, lead[|lead| - 1]);
      }
      NoDataFits(cfg, m, lead[..|lead| - 1]);
    }
  }

  /** The early exit in a run from CheckInit: `lead` is received in NODATA, `first` leads to INIT. */
  lemma EarlyExitFromStart(
    cfg: Config, m: Machine, lead: seq<ProfileStatus>, first: ProfileStatus, ss: seq<ProfileStatus>, s: ProfileStatus)
    requires cfg.Proper() && cfg.Room(|m.window|) && cfg.transitToInvalidExtended
    requires cfg.windowSizeInit <= cfg.windowSizeInvalid && |ss| + 1 < cfg.windowSizeInit
    requires Run(cfg, Initial(cfg, m), lead).state == NODATA
    requires Run(cfg, Initial(cfg, m), lead + [first]).state == INIT
    requires Run(cfg, Initial(cfg, m), lead + [first] + ss).state == INIT
    ensures Run(cfg, Initial(cfg, m), lead + [first] + (ss + [s])).state == INVALID <==>
      Count(ss + [s], P_ERROR) > cfg.init.maxError || Lost(cfg, ss + [s])
  {
    var start := Initial(cfg, m);
    NoDataFits(cfg, m, lead);
    var p := Run(cfg, start, lead);
    assert (lead + [first])[..|lead + [first]| - 1] == lead;
    InitStartsBlank(cfg, p, first);
    RunConcat(cfg, start, lead + [first], ss);
    RunConcat(cfg, start, lead + [first], ss + [s]);
    EarlyExit(cfg, Step(cfg, p, first), ss, s);
  }

  lemma CountPair(x: uint8, y: uint8, z: uint8)
    ensures Count([x, y], z) == (if x == z then 1 else 0) + (if y == z then 1 else 0)
  {
  }

  /** A run from CheckInit in which the window of INIT is full, VALID was missed, and INIT is kept. */
  lemma MissedAtLapEnd(cfg: Config, m: Machine)
    requires cfg.Proper() && cfg.Room(|m.window|) && cfg.transitToInvalidExtended
    requires cfg.windowSizeInit == 2 <= cfg.windowSizeInvalid && cfg.init.minOk == 2
    ensures Run(cfg, Initial(cfg, m), [P_OK, P_OK, P_REPEATED]).state == INIT && Lost(cfg, [P_OK, P_REPEATED])
  {
    var start := Initial(cfg, m);
    FirstOk(cfg, m);
    var r1 := Step(cfg, start, P_OK);
    SecondOk(cfg, r1);
    var r2 := Step(cfg, r1, P_OK);
    ThirdMissed(cfg, r2);
    ThreeSteps(cfg, start, P_OK, P_OK, P_REPEATED, r1, r2);
  }

  lemma ThreeSteps(
    cfg: Config, m: Machine, s1: ProfileStatus, s2: ProfileStatus, s3: ProfileStatus, r1: Machine, r2: Machine)
    requires m.Fits(cfg) && r1 == Step(cfg, m, s1) && r1.Fits(cfg) && r2 == Step(cfg, r1, s2) && r2.Fits(cfg)
    ensures Run(cfg, m, [s1, s2, s3]) == Step(cfg, r2, s3)
  {
    RunSnoc(cfg, m, [], s1);
    RunSnoc(cfg, m, [s1], s2);
    RunSnoc(cfg, m, [s1, s2], s3);
    assert [] + [s1] == [s1] && [s1] + [s2] == [s1, s2] && [s1, s2] + [s3] == [s1, s2, s3];
  }

  lemma RunSnoc(cfg: Config, m: Machine, ss: seq<ProfileStatus>, s: ProfileStatus)
    requires Run(cfg, m, ss).Fits(cfg)
    ensures Run(cfg, m, ss + [s]) == Step(cfg, Run(cfg, m, ss), s)
  {
    assert (ss + [s])[..|ss + [s]| - 1] == ss;
  }

  lemma FirstOk(cfg: Config, m: Machine)
    requires cfg.Proper() && cfg.Room(|m.window|) && cfg.transitToInvalidExtended
    requires cfg.windowSizeInit == 2 <= cfg.windowSizeInvalid
    ensures Initial(cfg, m).Fits(cfg) && FirstLap(cfg, Step(cfg, Initial(cfg, m), P_OK), [])
  {
    InitStartsBlank(cfg, Initial(cfg, m), P_OK);
  }

  lemma SecondOk(cfg: Config, m: Machine)
    requires FirstLap(cfg, m, []) && cfg.transitToInvalidExtended && cfg.windowSizeInit == 2 && cfg.init.minOk == 2
    ensures FirstLap(cfg, Step(cfg, m, P_OK), [P_OK])
  {
    var h: seq<uint8> := [];
    assert h + [P_OK] == [P_OK];
    LapAdd(cfg, m, h, P_OK);
    HopelessInLap(cfg, 1, 1);
    LapGoesOn(cfg, m, h, P_OK);
  }

  lemma ThirdMissed(cfg: Config, m: Machine)
    requires FirstLap(cfg, m, [P_OK]) && cfg.transitToInvalidExtended && cfg.windowSizeInit == 2 && cfg.init.minOk == 2
    ensures Step(cfg, m, P_REPEATED).state == INIT && Lost(cfg, [P_OK, P_REPEATED])
  {
    var h: seq<uint8> := [P_OK];
    assert h + [P_REPEATED] == [P_OK, P_REPEATED];
    CountPair(P_OK, P_REPEATED, P_OK);
    CountPair(P_OK, P_REPEATED, P_ERROR);
    LapAdd(cfg, m, h, P_REPEATED);
    LostMeans(cfg, h + [P_REPEATED]);
    HopelessInLap(cfg, 0, 1);
  }
}
