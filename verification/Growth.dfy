/** OKs and a window that grows: when VALID's window is larger than that of the state before it, entering
VALID clears all but the last of the old slots, and with them the OKs that led there. */
module Growth {
  import opened Wire
  import opened StateMachine
  import opened SlidingWindow
  import opened Reactions
  import opened EndToEnd

  function LimitsOf(cfg: Config, from: State): Limits
  {
    if from == INIT then cfg.init else cfg.invalid
  }

  /** VALID has a larger window than the state `from`, INIT or INVALID, and OKs lead from there to
      VALID. */
  predicate Grows(cfg: Config, from: State)
  {
    && cfg.Proper() && (from == INIT || from == INVALID)
    && cfg.Size(from) < cfg.windowSizeValid && LimitsOf(cfg, from).minOk <= cfg.Size(from)
  }

  /** The OKs that are counted before VALID is entered. */
  function Wanted(cfg: Config, from: State): nat
  {
    if LimitsOf(cfg, from).minOk == 0 then 1 else LimitsOf(cfg, from).minOk
  }

  /** The OKs in the window after the first check in VALID. */
  function Surviving(cfg: Config, from: State): nat
  {
    if Wanted(cfg, from) == cfg.Size(from) && cfg.Size(from) >= 2 then 2 else 1
  }

  lemma RunSplit(cfg: Config, m: Machine, s: ProfileStatus, a: nat, b: nat, n: nat)
    requires n == a + b
    ensures Run(cfg, m, Repeat(s, n)) == Run(cfg, Run(cfg, m, Repeat(s, a)), Repeat(s, b))
  {
    assert Repeat(s, n) == Repeat(s, a) + Repeat(s, b);
    RunConcat(cfg, m, Repeat(s, a), Repeat(s, b));
  }

  lemma AddedIn(cfg: Config, m: Machine, status: uint8, n: nat)
    requires m.Fits(cfg) && m.top < n <= |m.window|
    ensures Add(cfg, m, status).window[..n] == m.window[..n][m.top := status]
  {
  }

  // ---- Before VALID ----

  /** INIT or INVALID after j OKs, with nothing else in the slots that VALID will use. */
  ghost predicate Filling(cfg: Config, m: Machine, from: State, j: nat)
  {
    && m.Fits(cfg) && m.state == from && m.top == j < cfg.Size(from) < cfg.windowSizeValid
    && m.window[..cfg.windowSizeValid] == Repeat(P_OK, j) + Blank(cfg.windowSizeValid - j)
  }

  lemma FillingWindow(cfg: Config, m: Machine, from: State, j: nat)
    requires Filling(cfg, m, from, j)
    ensures var v := cfg.windowSizeValid;
            Add(cfg, m, P_OK).window[..v] == Repeat(P_OK, j + 1) + Blank(v - j - 1)
  {
    AddedIn(cfg, m, P_OK, cfg.windowSizeValid);
    BlankFilled(Repeat(P_OK, j), cfg.windowSizeValid, P_OK);
    RepeatSnoc(P_OK, j);
  }

  lemma CountFront(w: seq<uint8>, j: nat, n: nat, v: nat)
    requires j <= n <= v <= |w| && w[..v] == Repeat(P_OK, j) + Blank(v - j)
    ensures Count(w[..n], P_OK) == j && Count(w[..n], P_ERROR) == 0
  {
    assert w[..n] == w[..v][..n];
    assert w[..n] == Repeat(P_OK, j) + Blank(n - j);
    CountBlank(Repeat(P_OK, j), n - j, P_OK);
    CountBlank(Repeat(P_OK, j), n - j, P_ERROR);
    CountOks(j);
  }

  /** Another OK. */
  lemma FillingAdd(cfg: Config, m: Machine, from: State, j: nat)
    requires Filling(cfg, m, from, j)
    ensures var a := Add(cfg, m, P_OK);
            a.ok == j + 1 && a.error == 0 && a.top == (if j + 1 == cfg.Size(from) then 0 else j + 1)
  {
    FillingWindow(cfg, m, from, j);
    CountFront(Add(cfg, m, P_OK).window, j + 1, cfg.Size(from), cfg.windowSizeValid);
  }

  lemma FillingGoesOn(cfg: Config, m: Machine, from: State, j: nat)
    requires Grows(cfg, from) && Filling(cfg, m, from, j) && j + 1 < Wanted(cfg, from)
    ensures Filling(cfg, Step(cfg, m, P_OK), from, j + 1)
  {
    FillingAdd(cfg, m, from, j);
    FillingWindow(cfg, m, from, j);
    if from == INIT {
      HopelessInLap(cfg, j + 1, j + 1);
    }
  }

  lemma {:induction false} OksFill(cfg: Config, m: Machine, from: State, j: nat)
    requires Grows(cfg, from) && Filling(cfg, m, from, 0) && j < Wanted(cfg, from)
    ensures Filling(cfg, Run(cfg, m, Repeat(P_OK, j)), from, j)
  {
    if j > 0 {
      OksFill(cfg, m, from, j - 1);
      FillingGoesOn(cfg, Run(cfg, m, Repeat(P_OK, j - 1)), from, j - 1);
      RepeatSnoc(P_OK, j - 1);
      RunSnoc(cfg, m, Repeat(P_OK, j - 1), P_OK);
    }
  }

  // ---- In VALID ----

  /** The window of VALID at its start: at most the last of the old slots is filled. */
  function Remains(cfg: Config, from: State): seq<uint8>
    requires 1 <= cfg.Size(from) <= cfg.windowSizeValid
  {
    Blank(cfg.windowSizeValid)[cfg.Size(from) - 1 :=
      if Wanted(cfg, from) == cfg.Size(from) then P_OK else P_NOTAVAILABLE]
  }

  ghost predicate Entered(cfg: Config, m: Machine, from: State)
  {
    && m.Fits(cfg) && m.state == VALID && cfg.Size(from) < cfg.windowSizeValid && m.top < cfg.Size(from)
    && m.top == (if Wanted(cfg, from) == cfg.Size(from) then 0 else Wanted(cfg, from))
    && m.window[..cfg.windowSizeValid] == Remains(cfg, from)
  }

  /** What clearing all but slot i - 1 leaves of j OKs. */
  lemma LastSlot(w: seq<uint8>, i: nat, j: nat, v: nat)
    requires 1 <= j <= i < v <= |w| && w[..v] == Repeat(P_OK, j) + Blank(v - j)
    ensures (Blank(i - 1) + w[i - 1..])[..v] == Blank(v)[i - 1 := if j == i then P_OK else P_NOTAVAILABLE]
  {
    assert forall x | i - 1 <= x < v :: w[x] == w[..v][x];
  }

  lemma ValidEntered(cfg: Config, m: Machine, from: State)
    requires Grows(cfg, from) && Filling(cfg, m, from, Wanted(cfg, from) - 1)
    ensures Entered(cfg, Step(cfg, m, P_OK), from)
  {
    FillingAdd(cfg, m, from, Wanted(cfg, from) - 1);
    FillingWindow(cfg, m, from, Wanted(cfg, from) - 1);
    LastSlot(Add(cfg, m, P_OK).window, cfg.Size(from), Wanted(cfg, from), cfg.windowSizeValid);
  }

  lemma CountUpdated(w: seq<uint8>, k: nat, x: uint8, y: uint8)
    requires k < |w|
    ensures Count(w[k := x], y) == Count(w, y) - (if w[k] == y then 1 else 0) + (if x == y then 1 else 0)
  {
  }

  lemma CountRemains(cfg: Config, from: State, x: uint8)
    requires Grows(cfg, from) && x != P_NOTAVAILABLE
    ensures Count(Remains(cfg, from), x) == if Wanted(cfg, from) == cfg.Size(from) && x == P_OK then 1 else 0
  {
    var at := cfg.Size(from) - 1;
    CountOthers(Blank(cfg.windowSizeValid), P_NOTAVAILABLE, x);
    CountUpdated(Blank(cfg.windowSizeValid), at, Remains(cfg, from)[at], x);
  }

  /** The first check in VALID finds one OK, or two. */
  lemma FirstValid(cfg: Config, m: Machine, from: State)
    requires Grows(cfg, from) && Entered(cfg, m, from)
    ensures var a := Add(cfg, m, P_OK); a.ok == Surviving(cfg, from) && a.error == 0
  {
    AddedIn(cfg, m, P_OK, cfg.windowSizeValid);
    CountRemains(cfg, from, P_OK);
    CountRemains(cfg, from, P_ERROR);
    CountUpdated(Remains(cfg, from), m.top, P_OK, P_OK);
    CountUpdated(Remains(cfg, from), m.top, P_OK, P_ERROR);
  }

  /** VALID after an OK, without errors. */
  ghost predicate Going(cfg: Config, m: Machine)
  {
    && m.Fits(cfg) && m.state == VALID && m.Legal(cfg)
    && Newest(m, cfg.windowSizeValid, P_OK, 1) && P_ERROR !in m.window[..cfg.windowSizeValid]
  }

  lemma NoErrors(cfg: Config, m: Machine)
    requires m.Fits(cfg) && m.Legal(cfg) && P_ERROR !in m.window[..cfg.Size(m.state)]
    ensures var a := Add(cfg, m, P_OK); a.error == 0 && P_ERROR !in a.window[..cfg.Size(m.state)]
  {
    AddedIn(cfg, m, P_OK, cfg.Size(m.state));
  }

  lemma GoesOn(cfg: Config, m: Machine)
    requires Going(cfg, m) && cfg.windowSizeValid >= 2 && cfg.valid.minOk <= 2
    ensures Going(cfg, Step(cfg, m, P_OK))
  {
    NoErrors(cfg, m);
    AddNewest(cfg, m, P_OK, 1);
  }

  lemma FirstGoing(cfg: Config, m: Machine, from: State)
    requires Grows(cfg, from) && Entered(cfg, m, from) && cfg.valid.minOk <= Surviving(cfg, from)
    ensures Going(cfg, Step(cfg, m, P_OK))
  {
    FirstValid(cfg, m, from);
    assert P_ERROR !in Remains(cfg, from);
    NoErrors(cfg, m);
    AddNewest(cfg, m, P_OK, 0);
  }

  lemma {:induction false} OksGoOn(cfg: Config, m: Machine, n: nat)
    requires Going(cfg, m) && cfg.windowSizeValid >= 2 && cfg.valid.minOk <= 2
    ensures Going(cfg, Run(cfg, m, Repeat(P_OK, n)))
  {
    if n > 0 {
      OksGoOn(cfg, m, n - 1);
      GoesOn(cfg, Run(cfg, m, Repeat(P_OK, n - 1)));
      RepeatSnoc(P_OK, n - 1);
      RunSnoc(cfg, m, Repeat(P_OK, n - 1), P_OK);
    }
  }

  lemma EnteredKeep(cfg: Config, m: Machine, from: State, n: nat)
    requires Grows(cfg, from) && Entered(cfg, m, from) && cfg.valid.minOk <= Surviving(cfg, from)
    ensures Run(cfg, m, Repeat(P_OK, n)).state == VALID
  {
    if n > 0 {
      FirstGoing(cfg, m, from);
      RunCons(cfg, m, P_OK, n - 1);
      OksGoOn(cfg, Step(cfg, m, P_OK), n - 1);
    }
  }

  // ---- From an empty window ----

  lemma OksEnter(cfg: Config, m: Machine, from: State)
    requires Grows(cfg, from) && Filling(cfg, m, from, 0)
    ensures Entered(cfg, Run(cfg, m, Repeat(P_OK, Wanted(cfg, from))), from)
  {
    var k := Wanted(cfg, from) - 1;
    OksFill(cfg, m, from, k);
    ValidEntered(cfg, Run(cfg, m, Repeat(P_OK, k)), from);
    RepeatSnoc(P_OK, k);
    RunSnoc(cfg, m, Repeat(P_OK, k), P_OK);
  }

  lemma OksKeep(cfg: Config, m: Machine, from: State, n: nat)
    requires Grows(cfg, from) && Filling(cfg, m, from, 0)
    requires cfg.valid.minOk <= Surviving(cfg, from) && n >= Wanted(cfg, from)
    ensures Run(cfg, m, Repeat(P_OK, n)).state == VALID
  {
    var k := Wanted(cfg, from);
    OksEnter(cfg, m, from);
    RunSplit(cfg, m, P_OK, k, n - k, n);
    EnteredKeep(cfg, Run(cfg, m, Repeat(P_OK, k)), from, n - k);
  }

  lemma OkAfterEntry(cfg: Config, m: Machine, from: State)
    requires Grows(cfg, from) && Filling(cfg, m, from, 0)
    ensures var r := Run(cfg, m, Repeat(P_OK, Wanted(cfg, from) + 1));
            && r.state == (if cfg.valid.minOk <= Surviving(cfg, from) then VALID else INVALID)
            && (!cfg.clearToInvalid ==> r.ok == Surviving(cfg, from))
  {
    var k := Wanted(cfg, from);
    OksEnter(cfg, m, from);
    FirstValid(cfg, Run(cfg, m, Repeat(P_OK, k)), from);
    RepeatSnoc(P_OK, k);
    RunSnoc(cfg, m, Repeat(P_OK, k), P_OK);
  }

  lemma OksBefore(cfg: Config, m: Machine, from: State, n: nat)
    requires Grows(cfg, from) && Filling(cfg, m, from, 0) && n <= Wanted(cfg, from)
    ensures Run(cfg, m, Repeat(P_OK, n)).state == if n < Wanted(cfg, from) then from else VALID
  {
    if n < Wanted(cfg, from) {
      OksFill(cfg, m, from, n);
    } else {
      OksEnter(cfg, m, from);
    }
  }

  /** From INIT or INVALID with an empty window, in both variants: VALID is entered with the OK that
      fills the limit, but OKs keep the machine there if and only if MinOkStateValid is at most 1, or 2
      where that limit fills the window; otherwise the next OK takes it to INVALID. */
  lemma OksFromBlank(cfg: Config, m: Machine, from: State)
    requires Grows(cfg, from) && Filling(cfg, m, from, 0)
    ensures forall n: nat :: n <= Wanted(cfg, from) ==>
      Run(cfg, m, Repeat(P_OK, n)).state == if n < Wanted(cfg, from) then from else VALID
    ensures cfg.valid.minOk <= Surviving(cfg, from) <==>
      forall n: nat :: n >= Wanted(cfg, from) ==> Run(cfg, m, Repeat(P_OK, n)).state == VALID
    ensures cfg.valid.minOk > Surviving(cfg, from) <==>
      Run(cfg, m, Repeat(P_OK, Wanted(cfg, from) + 1)).state == INVALID
  {
    forall n: nat | n <= Wanted(cfg, from)
      ensures Run(cfg, m, Repeat(P_OK, n)).state == if n < Wanted(cfg, from) then from else VALID
    {
      OksBefore(cfg, m, from, n);
    }
    OkAfterEntry(cfg, m, from);
    if cfg.valid.minOk <= Surviving(cfg, from) {
      forall n: nat | n >= Wanted(cfg, from)
        ensures Run(cfg, m, Repeat(P_OK, n)).state == VALID
      {
        OksKeep(cfg, m, from, n);
      }
    }
  }

  // ---- After VALID was left ----

  /** VALID, left with ClearToInvalid, leaves an empty window, so that recovery takes exactly
      max(1, MinOkStateInvalid) OKs and lasts as stated above. */
  lemma RecoveryKeepsValid(cfg: Config, m: Machine, status: uint8)
    requires Grows(cfg, INVALID) && cfg.clearToInvalid && m.Fits(cfg) && m.state == VALID
    requires Step(cfg, m, status).state == INVALID
    ensures var r, k := Step(cfg, m, status), Wanted(cfg, INVALID);
            && (forall n: nat :: n <= k ==>
                  Run(cfg, r, Repeat(P_OK, n)).state == if n < k then INVALID else VALID)
            && (cfg.valid.minOk <= Surviving(cfg, INVALID) <==>
                  forall n: nat :: n >= k ==> Run(cfg, r, Repeat(P_OK, n)).state == VALID)
            && (cfg.valid.minOk > Surviving(cfg, INVALID) <==> Run(cfg, r, Repeat(P_OK, k + 1)).state == INVALID)
  {
    LeftBlank(cfg, m, status);
    OksFromBlank(cfg, Step(cfg, m, status), INVALID);
  }

  lemma LeftBlank(cfg: Config, m: Machine, status: uint8)
    requires Grows(cfg, INVALID) && cfg.clearToInvalid && m.Fits(cfg) && m.state == VALID
    requires Step(cfg, m, status).state == INVALID
    ensures Filling(cfg, Step(cfg, m, status), INVALID, 0)
  {
    var v, w := cfg.windowSizeValid, Add(cfg, m, status).window;
    assert (Blank(v) + w[v..])[..v] == Blank(v);
    assert Repeat(P_OK, 0) + Blank(v) == Blank(v);
  }

  // ---- From CheckInit ----

  /** Nothing is left in the slots that VALID will use, and the first OK leads to INIT. */
  ghost predicate Cleared(cfg: Config, m: Machine)
  {
    && cfg.Room(|m.window|) && Initial(cfg, m).window[..cfg.windowSizeValid] == Blank(cfg.windowSizeValid)
    && (cfg.transitToInvalidExtended ==> cfg.windowSizeInit >= 2 && cfg.windowSizeInvalid >= 2)
  }

  lemma InitEntered(cfg: Config, m: Machine)
    requires Grows(cfg, INIT) && Cleared(cfg, m)
    ensures Initial(cfg, m).Fits(cfg) && Filling(cfg, Step(cfg, Initial(cfg, m), P_OK), INIT, 0)
  {
    var start, v := Initial(cfg, m), cfg.windowSizeValid;
    var r := Step(cfg, start, P_OK);
    assert forall x | 0 <= x < v :: start.window[x] == start.window[..v][x];
    assert forall x | 0 <= x < v :: r.window[x] == P_NOTAVAILABLE;
  }

  /** The first OK leads to INIT, the others follow. */
  lemma OneFirst(cfg: Config, m: Machine, n: nat)
    requires Grows(cfg, INIT) && Cleared(cfg, m) && n > 0
    ensures var r := Step(cfg, Initial(cfg, m), P_OK);
            Filling(cfg, r, INIT, 0) && Run(cfg, Initial(cfg, m), Repeat(P_OK, n)) == Run(cfg, r, Repeat(P_OK, n - 1))
  {
    InitEntered(cfg, m);
    RunCons(cfg, Initial(cfg, m), P_OK, n - 1);
  }

  lemma OksAsExpected(cfg: Config, m: Machine, n: nat)
    requires Grows(cfg, INIT) && Cleared(cfg, m) && n <= Needed(cfg) + 1
    ensures Run(cfg, Initial(cfg, m), Repeat(P_OK, n)).state == Expected(cfg, n)
  {
    if n > 0 {
      OneFirst(cfg, m, n);
      OksBefore(cfg, Step(cfg, Initial(cfg, m), P_OK), INIT, n - 1);
    }
  }

  lemma OksThere(cfg: Config, m: Machine, n: nat)
    requires Grows(cfg, INIT) && Cleared(cfg, m) && n > Needed(cfg) && cfg.valid.minOk <= Surviving(cfg, INIT)
    ensures Run(cfg, Initial(cfg, m), Repeat(P_OK, n)).state == VALID
  {
    OneFirst(cfg, m, n);
    OksKeep(cfg, Step(cfg, Initial(cfg, m), P_OK), INIT, n - 1);
  }

  lemma OneTooMany(cfg: Config, m: Machine)
    requires Grows(cfg, INIT) && Cleared(cfg, m)
    ensures var r := Run(cfg, Initial(cfg, m), Repeat(P_OK, Needed(cfg) + 2));
            && r.state == (if cfg.valid.minOk <= Surviving(cfg, INIT) then VALID else INVALID)
            && (!cfg.clearToInvalid ==> r.ok == Surviving(cfg, INIT))
  {
    OneFirst(cfg, m, Needed(cfg) + 2);
    OkAfterEntry(cfg, Step(cfg, Initial(cfg, m), P_OK), INIT);
  }

  /** From CheckInit OKs lead to VALID as with equal windows, and keep the machine there under the
      condition above. */
  lemma OksKeepValid(cfg: Config, m: Machine)
    requires Grows(cfg, INIT) && Cleared(cfg, m)
    ensures forall n: nat :: n <= Needed(cfg) + 1 ==>
      Run(cfg, Initial(cfg, m), Repeat(P_OK, n)).state == Expected(cfg, n)
    ensures cfg.valid.minOk <= Surviving(cfg, INIT) <==>
      forall n: nat :: n > Needed(cfg) ==> Run(cfg, Initial(cfg, m), Repeat(P_OK, n)).state == VALID
    ensures cfg.valid.minOk > Surviving(cfg, INIT) <==>
      Run(cfg, Initial(cfg, m), Repeat(P_OK, Needed(cfg) + 2)).state == INVALID
  {
    forall n: nat | n <= Needed(cfg) + 1
      ensures Run(cfg, Initial(cfg, m), Repeat(P_OK, n)).state == Expected(cfg, n)
    {
      OksAsExpected(cfg, m, n);
    }
    OneTooMany(cfg, m);
    if cfg.valid.minOk <= Surviving(cfg, INIT) {
      forall n: nat | n > Needed(cfg)
        ensures Run(cfg, Initial(cfg, m), Repeat(P_OK, n)).state == VALID
      {
        OksThere(cfg, m, n);
      }
    }
  }

  /** With windows of 3 and 10 slots and three OKs asked for in both, the fourth OK enters VALID and
      the fifth leaves it, with two OKs counted. */
  lemma LeftOnOk(cfg: Config, m: Machine)
    requires Grows(cfg, INIT) && Cleared(cfg, m) && !cfg.clearToInvalid
    requires cfg.windowSizeInit == 3 && cfg.windowSizeValid == 10 && cfg.init.minOk == 3 && cfg.valid.minOk == 3
    ensures Run(cfg, Initial(cfg, m), Repeat(P_OK, 4)).state == VALID
    ensures var r := Run(cfg, Initial(cfg, m), Repeat(P_OK, 5)); r.state == INVALID && r.ok == 2
  {
    OksAsExpected(cfg, m, 4);
    OneTooMany(cfg, m);
  }
}
