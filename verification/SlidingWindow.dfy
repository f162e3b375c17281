/** The circular window as a sliding window.

With the three window sizes equal, the state machine behaves as if it kept the whole history of
statuses since its window was last cleared, and counted among the most recent ones. */
module SlidingWindow {
  import opened Wire
  import opened Receiver
  import opened StateMachine

  /** A run of checks. It ends early if the index leaves the buffer. */
  function Run(cfg: Config, m: Machine, ss: seq<ProfileStatus>): (r: Machine)
    ensures |r.window| == |m.window|
  {
    if ss == [] then m
    else
      var p := Run(cfg, m, ss[..|ss| - 1]);
      if p.Fits(cfg) then Step(cfg, p, ss[|ss| - 1]) else p
  }

  lemma {:induction false} RunConcat(cfg: Config, m: Machine, a: seq<ProfileStatus>, b: seq<ProfileStatus>)
    ensures Run(cfg, m, a + b) == Run(cfg, Run(cfg, m, a), b)
  {
    if b == [] {
      assert a + b == a;
    } else {
      var init := b[..|b| - 1];
      RunConcat(cfg, m, a, init);
      assert (a + b)[..|a + b| - 1] == a + init;
      assert (a + b)[|a + b| - 1] == b[|b| - 1];
      var p := Run(cfg, m, a + init);
      assert Run(cfg, m, a + b) == if p.Fits(cfg) then Step(cfg, p, b[|b| - 1]) else p;
    }
  }

  // ---- One window of a fixed size ----

  /** The window, the oldest status first. */
  function Unrolled(m: Machine, n: nat): (s: seq<uint8>)
    requires m.top < n <= |m.window|
    ensures |s| == n
  {
    m.window[m.top..n] + m.window[..m.top]
  }

  lemma CountConcat(a: seq<uint8>, b: seq<uint8>, x: uint8)
    ensures Count(a + b, x) == Count(a, x) + Count(b, x)
  {
  }

  lemma CountUnrolled(w: seq<uint8>, top: nat, x: uint8)
    requires top <= |w|
    ensures Count(w, x) == Count(w[top..] + w[..top], x)
  {
    assert w == w[..top] + w[top..];
    CountConcat(w[..top], w[top..], x);
    CountConcat(w[top..], w[..top], x);
  }

  /** Overwriting the oldest of the statuses in a ring and moving on. */
  lemma RingSlides(w: seq<uint8>, top: nat, status: uint8)
    requires top < |w|
    ensures var w', top' := w[top := status], if top == |w| - 1 then 0 else top + 1;
            w'[top'..] + w'[..top'] == (w[top..] + w[..top])[1..] + [status]
  {
    var w' := w[top := status];
    assert w[top..] + w[..top] == [w[top]] + (w[top + 1..] + w[..top]);
    assert (w[top..] + w[..top])[1..] == w[top + 1..] + w[..top];
    if top == |w| - 1 {
      assert w' == w[..top] + [status];
    } else {
      assert w'[top + 1..] == w[top + 1..];
      assert w'[..top + 1] == w[..top] + [status];
    }
  }

  /** Adding a status drops the oldest one, and the counts are those of the new window. */
  lemma AddSlides(cfg: Config, m: Machine, status: uint8)
    requires m.Fits(cfg) && m.Legal(cfg)
    ensures var n, a := cfg.Size(m.state), Add(cfg, m, status);
            && a.Legal(cfg)
            && Unrolled(a, n) == Unrolled(m, n)[1..] + [status]
            && a.ok == Count(Unrolled(a, n), P_OK) && a.error == Count(Unrolled(a, n), P_ERROR)
  {
    var n, a := cfg.Size(m.state), Add(cfg, m, status);
    var w := m.window[..n];
    assert a.window[..n] == w[m.top := status];
    RingSlides(w, m.top, status);
    CountUnrolled(a.window[..n], a.top, P_OK);
    CountUnrolled(a.window[..n], a.top, P_ERROR);
    UnrolledRing(m, n);
    UnrolledRing(a, n);
  }

  lemma UnrolledRing(m: Machine, n: nat)
    requires m.top < n <= |m.window|
    ensures Unrolled(m, n) == m.window[..n][m.top..] + m.window[..n][..m.top]
  {
  }

  // ---- Histories ----

  /** The last w statuses of a history, padded with NOTAVAILABLE. */
  function Recent(h: seq<uint8>, w: nat): (s: seq<uint8>)
    ensures |s| == w
  {
    (Blank(w) + h)[|h|..]
  }

  lemma RecentSlides(h: seq<uint8>, s: uint8, w: nat)
    requires w > 0
    ensures Recent(h + [s], w) == Recent(h, w)[1..] + [s]
  {
    assert Blank(w) + (h + [s]) == (Blank(w) + h) + [s];
  }

  lemma ModNext(k: nat, w: nat)
    requires w > 0
    ensures (k + 1) % w == if k % w == w - 1 then 0 else k % w + 1
  {
    var q, r := k / w, k % w;
    assert k == q * w + r;
    if r == w - 1 {
      assert k + 1 == (q + 1) * w + 0 by {
        assert (q + 1) * w == q * w + w;
      }
      ModUnique(k + 1, q + 1, 0, w);
    } else {
      ModUnique(k + 1, q, r + 1, w);
    }
  }

  /** The state machine without a buffer: the history since the last clearing, the counts as of
      the latest status added, and the state. */
  datatype Historian = Historian(history: seq<uint8>, ok: nat, error: nat, state: State)

  function Record(w: nat, a: Historian, status: uint8): Historian
  {
    var h := a.history + [status];
    Historian(h, Count(Recent(h, w), P_OK), Count(Recent(h, w), P_ERROR), a.state)
  }

  function Forget(state: State): Historian
  {
    Historian([], 0, 0, state)
  }

  function Fail(cfg: Config, a: Historian): Historian
  {
    if cfg.clearToInvalid then Forget(INVALID) else a.(state := INVALID)
  }

  /** Slots used in this lap. At the end of a lap this is 0, except in a window of one slot. */
  function Used(k: nat, w: nat): nat
    requires w > 0
  {
    if k % w == 0 then (if w == 1 then 1 else 0) else k % w
  }

  predicate Spent(cfg: Config, k: nat, ok: nat)
    requires cfg.Proper()
  {
    Used(k, cfg.windowSizeInit) - ok > cfg.windowSizeInit - cfg.init.minOk
  }

  function Note(cfg: Config, a: Historian, status: uint8): Historian
    requires cfg.Proper()
  {
    var w := cfg.windowSizeInit;
    var b := Record(w, a, status);
    match a.state
    case DEINIT => a
    case NODATA =>
      if !cfg.transitToInvalidExtended then (if Starts(status) then a.(state := INIT) else a)
      else if |b.history| % w == 0 then Fail(cfg, b)
      else if Starts(status) then Forget(INIT)
      else b
    case INIT =>
      if cfg.init.Met(b.ok, b.error) then b.(state := VALID)
      else if b.error > cfg.init.maxError then Fail(cfg, b)
      else if cfg.transitToInvalidExtended && Spent(cfg, |b.history|, b.ok) then Fail(cfg, b)
      else b
    case VALID =>
      if cfg.valid.Met(b.ok, b.error) then b else Fail(cfg, b)
    case INVALID =>
      if cfg.invalid.Met(b.ok, b.error) then b.(state := VALID)
      else if cfg.transitToInvalidExtended && status == P_ERROR then Forget(INVALID)
      else b
  }

  function Chronicle(cfg: Config, ss: seq<ProfileStatus>): Historian
    requires cfg.Proper()
  {
    if ss == [] then Forget(NODATA) else Note(cfg, Chronicle(cfg, ss[..|ss| - 1]), ss[|ss| - 1])
  }

  // ---- Refinement ----

  predicate EqualSizes(cfg: Config)
  {
    cfg.windowSizeInit >= 1 && cfg.windowSizeValid == cfg.windowSizeInit == cfg.windowSizeInvalid
  }

  ghost predicate Represents(w: nat, m: Machine, a: Historian)
    requires w > 0
  {
    && w <= |m.window|
    && m.top == |a.history| % w
    && Unrolled(m, w) == Recent(a.history, w)
    && m.ok == a.ok && m.error == a.error && m.state == a.state
  }

  lemma AddRecords(cfg: Config, m: Machine, a: Historian, status: uint8)
    requires EqualSizes(cfg) && Represents(cfg.windowSizeInit, m, a)
    ensures m.Fits(cfg) && Represents(cfg.windowSizeInit, Add(cfg, m, status), Record(cfg.windowSizeInit, a, status))
  {
    var w := cfg.windowSizeInit;
    AddSlides(cfg, m, status);
    RecentSlides(a.history, status, w);
    ModNext(|a.history|, w);
  }

  lemma ClearForgets(cfg: Config, m: Machine, state: State)
    requires EqualSizes(cfg) && cfg.Room(|m.window|)
    ensures Represents(cfg.windowSizeInit, Clear(cfg, m).(state := state), Forget(state))
  {
    var w := cfg.windowSizeInit;
    var r := Clear(cfg, m).(state := state);
    assert Unrolled(r, w) == r.window[..w];
    assert r.window[..w] == Blank(w) == Recent([], w);
  }

  lemma RejectFails(cfg: Config, m: Machine, a: Historian)
    requires EqualSizes(cfg) && Represents(cfg.windowSizeInit, m, a)
    ensures Represents(cfg.windowSizeInit, Reject(cfg, m), Fail(cfg, a))
    ensures Represents(cfg.windowSizeInit, Demote(cfg, m), Fail(cfg, a))
  {
    ClearForgets(cfg, m, INVALID);
  }

  lemma HopelessUsed(cfg: Config, k: nat, ok: nat)
    requires cfg.Proper()
    ensures Hopeless(cfg, k % cfg.windowSizeInit, ok) <==> Spent(cfg, k, ok)
  {
    var w, top := cfg.windowSizeInit, k % cfg.windowSizeInit;
    if top > 0 {
      ModUnique(top - 1, 0, top - 1, w);
    } else if w > 1 {
      ModUnique(1, 0, 1, w);
    }
  }

  lemma FirstStepNotes(cfg: Config, m: Machine, a: Historian, status: uint8)
    requires EqualSizes(cfg) && Represents(cfg.windowSizeInit, m, a) && m.state == NODATA
    ensures m.Fits(cfg) && Represents(cfg.windowSizeInit, Step(cfg, m, status), Note(cfg, a, status))
  {
    var w := cfg.windowSizeInit;
    AddRecords(cfg, m, a, status);
    var m', a' := Add(cfg, m, status), Record(w, a, status);
    ClearForgets(cfg, m', INIT);
    RejectFails(cfg, m', a');
  }

  lemma InitStepNotes(cfg: Config, m: Machine, a: Historian, status: uint8)
    requires EqualSizes(cfg) && Represents(cfg.windowSizeInit, m, a) && m.state == INIT
    ensures m.Fits(cfg) && Represents(cfg.windowSizeInit, Step(cfg, m, status), Note(cfg, a, status))
  {
    var w := cfg.windowSizeInit;
    AddRecords(cfg, m, a, status);
    var m', a' := Add(cfg, m, status), Record(w, a, status);
    RejectFails(cfg, m', a');
    HopelessUsed(cfg, |a'.history|, a'.ok);
    if cfg.init.Met(a'.ok, a'.error) {
      assert Step(cfg, m, status) == m'.(state := VALID) && Note(cfg, a, status) == a'.(state := VALID);
    } else if a'.error > cfg.init.maxError || (cfg.transitToInvalidExtended && Hopeless(cfg, m'.top, m'.ok)) {
      assert Step(cfg, m, status) == Reject(cfg, m') && Note(cfg, a, status) == Fail(cfg, a');
    } else {
      assert Step(cfg, m, status) == m' && Note(cfg, a, status) == a';
    }
  }

  lemma LaterStepNotes(cfg: Config, m: Machine, a: Historian, status: uint8)
    requires EqualSizes(cfg) && Represents(cfg.windowSizeInit, m, a) && (m.state == VALID || m.state == INVALID)
    ensures m.Fits(cfg) && Represents(cfg.windowSizeInit, Step(cfg, m, status), Note(cfg, a, status))
  {
    var w := cfg.windowSizeInit;
    AddRecords(cfg, m, a, status);
    var m', a' := Add(cfg, m, status), Record(w, a, status);
    ClearForgets(cfg, m', INVALID);
    RejectFails(cfg, m', a');
  }

  lemma StepNotes(cfg: Config, m: Machine, a: Historian, status: uint8)
    requires EqualSizes(cfg) && Represents(cfg.windowSizeInit, m, a)
    ensures m.Fits(cfg) && Represents(cfg.windowSizeInit, Step(cfg, m, status), Note(cfg, a, status))
  {
    match m.state
    case NODATA => FirstStepNotes(cfg, m, a, status);
    case INIT => InitStepNotes(cfg, m, a, status);
    case VALID => LaterStepNotes(cfg, m, a, status);
    case INVALID => LaterStepNotes(cfg, m, a, status);
    case DEINIT =>
  }

  /** Every run, in either variant and with either setting of ClearToInvalid, refines the machine
      on histories. */
  lemma {:induction false} RunChronicles(cfg: Config, m: Machine, ss: seq<ProfileStatus>)
    requires EqualSizes(cfg) && cfg.Room(|m.window|)
    ensures Represents(cfg.windowSizeInit, Run(cfg, Initial(cfg, m), ss), Chronicle(cfg, ss))
  {
    if ss == [] {
      ClearForgets(cfg, m, NODATA);
    } else {
      RunChronicles(cfg, m, ss[..|ss| - 1]);
      StepNotes(cfg, Run(cfg, Initial(cfg, m), ss[..|ss| - 1]), Chronicle(cfg, ss[..|ss| - 1]), ss[|ss| - 1]);
    }
  }

  // ---- The state as a function of the statuses alone ----

  predicate Started(ss: seq<ProfileStatus>)
  {
    exists k :: 0 <= k < |ss| && Starts(ss[k])
  }

  /** The statuses after the first one that is neither an error nor missing data. */
  function Heard(ss: seq<ProfileStatus>): (h: seq<uint8>)
  {
    if ss == [] then [] else if Starts(ss[0]) then ss[1..] else Heard(ss[1..])
  }

  /** The state after a history of heard statuses. */
  function StateAfter(cfg: Config, h: seq<uint8>): (v: State)
    ensures v != DEINIT && v != NODATA
  {
    if h == [] then INIT
    else
      var r := Recent(h, cfg.windowSizeInit);
      var ok, error := Count(r, P_OK), Count(r, P_ERROR);
      match StateAfter(cfg, h[..|h| - 1])
      case INIT =>
        if cfg.init.Met(ok, error) then VALID else if error > cfg.init.maxError then INVALID else INIT
      case VALID => if cfg.valid.Met(ok, error) then VALID else INVALID
      case _ => if cfg.invalid.Met(ok, error) then VALID else INVALID
  }

  lemma {:induction false} HeardGrows(ss: seq<ProfileStatus>, s: ProfileStatus)
    ensures Heard(ss + [s]) == if Started(ss) then Heard(ss) + [s] else []
  {
    if ss == [] {
      assert Heard([s]) == [];
    } else {
      assert (ss + [s])[1..] == ss[1..] + [s];
      if !Starts(ss[0]) {
        HeardGrows(ss[1..], s);
        assert Started(ss) <==> Started(ss[1..]) by {
          assert forall k :: 0 < k < |ss| ==> ss[k] == ss[1..][k - 1];
        }
      }
    }
  }

  /** A historian that has heard h, before R20-11 and without clearing. */
  ghost predicate HasHeard(cfg: Config, a: Historian, h: seq<uint8>)
  {
    && a.history == h && a.state == StateAfter(cfg, h)
    && (h != [] ==>
          var r := Recent(h, cfg.windowSizeInit);
          a.ok == Count(r, P_OK) && a.error == Count(r, P_ERROR))
  }

  lemma NoteHeard(cfg: Config, a: Historian, h: seq<uint8>, s: uint8)
    requires EqualSizes(cfg) && !cfg.clearToInvalid && !cfg.transitToInvalidExtended
    requires HasHeard(cfg, a, h)
    ensures HasHeard(cfg, Note(cfg, a, s), h + [s])
  {
    assert (h + [s])[..|h + [s]| - 1] == h;
  }

  lemma {:induction false} ChronicleHeard(cfg: Config, ss: seq<ProfileStatus>)
    requires EqualSizes(cfg) && !cfg.clearToInvalid && !cfg.transitToInvalidExtended
    ensures var a := Chronicle(cfg, ss);
            if Started(ss) then HasHeard(cfg, a, Heard(ss)) else Heard(ss) == [] && a == Forget(NODATA)
  {
    if ss != [] {
      var init, s := ss[..|ss| - 1], ss[|ss| - 1];
      ChronicleHeard(cfg, init);
      assert ss == init + [s];
      HeardGrows(init, s);
      assert Started(ss) <==> Started(init) || Starts(s);
      if Started(init) {
        NoteHeard(cfg, Chronicle(cfg, init), Heard(init), s);
      }
    }
  }

  /** Before R20-11, with equal windows that are never cleared, the counts are those among the last
      w statuses heard, and the state depends on the statuses alone. */
  lemma StateOfHistory(cfg: Config, m: Machine, ss: seq<ProfileStatus>)
    requires EqualSizes(cfg) && cfg.Room(|m.window|) && !cfg.clearToInvalid && !cfg.transitToInvalidExtended
    ensures var r, h := Run(cfg, Initial(cfg, m), ss), Heard(ss);
            && r.state == (if Started(ss) then StateAfter(cfg, h) else NODATA)
            && (h != [] ==>
                  var w := Recent(h, cfg.windowSizeInit);
                  r.ok == Count(w, P_OK) && r.error == Count(w, P_ERROR))
  {
    RunChronicles(cfg, m, ss);
    ChronicleHeard(cfg, ss);
  }
}
