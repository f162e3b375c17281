/** The E2E state machine: a circular window of profile statuses, the counts of OK and ERROR in
it, and the states that the counts drive.

The window's size depends on the state, so a change of state resizes the part of the buffer that
is in use. There are two variants, before and from release R20-11. */
module StateMachine {
  import opened Wire
  import opened Receiver

  /** The profile-independent statuses that a check accepts. */
  type ProfileStatus = n: int | 0 <= n <= 5

  const P_OK: ProfileStatus := 0
  const P_REPEATED: ProfileStatus := 1
  const P_WRONGSEQUENCE: ProfileStatus := 2
  const P_ERROR: ProfileStatus := 3
  const P_NOTAVAILABLE: ProfileStatus := 4
  const P_NONEWDATA: ProfileStatus := 5

  datatype State = VALID | DEINIT | NODATA | INIT | INVALID

  /** How many OKs a state demands and how many errors it bears. */
  datatype Limits = Limits(minOk: uint8, maxError: uint8)
  {
    predicate Met(ok: nat, error: nat)
    {
      error <= maxError && ok >= minOk
    }
  }

  datatype Config = Config(
    windowSizeValid: uint8, windowSizeInit: uint8, windowSizeInvalid: uint8,
    valid: Limits, init: Limits, invalid: Limits,
    clearToInvalid: bool, transitToInvalidExtended: bool)
  {
    /** The code divides by the sizes and counts down from them. */
    predicate Proper()
    {
      windowSizeValid >= 1 && windowSizeInit >= 1 && windowSizeInvalid >= 1
    }

    function Size(state: State): nat
    {
      match state
      case VALID => windowSizeValid
      case INIT => windowSizeInit
      case _ => windowSizeInvalid
    }

    /** A buffer of this length has room for every window. */
    predicate Room(length: nat)
    {
      windowSizeValid <= length && windowSizeInit <= length && windowSizeInvalid <= length
    }
  }

  /** What is kept between checks. */
  datatype Machine = Machine(window: seq<uint8>, top: uint8, ok: nat, error: nat, state: State)
  {
    predicate Fits(cfg: Config)
    {
      cfg.Proper() && cfg.Room(|window|) && top < |window|
    }

    /** The next slot is inside the window of the current state. */
    predicate Legal(cfg: Config)
    {
      top < cfg.Size(state)
    }
  }

  function Count(s: seq<uint8>, x: uint8): nat
  {
    multiset(s)[x]
  }

  function Blank(n: nat): (s: seq<uint8>)
    ensures |s| == n
  {
    seq(n, _ => P_NOTAVAILABLE)
  }

  // ---- The window ----

  /** The slot after top in a window of n slots, for an index of eight bits. */
  function Next(top: uint8, n: nat): uint8
  {
    if top == n - 1 || top == 0xFF then 0 else top + 1
  }

  function Add(cfg: Config, m: Machine, status: uint8): (r: Machine)
    requires m.Fits(cfg)
    ensures r.state == m.state && |r.window| == |m.window|
  {
    var n := cfg.Size(m.state);
    var w := m.window[m.top := status];
    Machine(w, Next(m.top, n), Count(w[..n], P_OK), Count(w[..n], P_ERROR), m.state)
  }

  function Clear(cfg: Config, m: Machine): (r: Machine)
    requires cfg.Room(|m.window|)
    ensures r.state == m.state && |r.window| == |m.window|
  {
    var n := cfg.Size(m.state);
    Machine(Blank(n) + m.window[n..], 0, 0, 0, m.state)
  }

  /** When the window is about to grow, all but the last of its slots are cleared. */
  function ClearRemaining(cfg: Config, m: Machine, next: State): (r: Machine)
    requires cfg.Proper() && cfg.Room(|m.window|)
    ensures r.state == m.state && |r.window| == |m.window|
  {
    var n := cfg.Size(m.state);
    if n < cfg.Size(next) then m.(window := Blank(n - 1) + m.window[n - 1..]) else m
  }

  // ---- Transitions ----

  /** To VALID. */
  function Promote(cfg: Config, m: Machine): Machine
    requires cfg.Proper() && cfg.Room(|m.window|)
  {
    ClearRemaining(cfg, m, VALID).(state := VALID)
  }

  /** From NODATA or INIT to INVALID. */
  function Reject(cfg: Config, m: Machine): Machine
    requires cfg.Proper() && cfg.Room(|m.window|)
  {
    (if cfg.clearToInvalid then Clear(cfg, m) else ClearRemaining(cfg, m, INVALID)).(state := INVALID)
  }

  /** From VALID to INVALID. */
  function Demote(cfg: Config, m: Machine): Machine
    requires cfg.Room(|m.window|)
  {
    (if cfg.clearToInvalid then Clear(cfg, m) else m).(state := INVALID)
  }

  predicate Starts(status: uint8)
  {
    status != P_ERROR && status != P_NONEWDATA
  }

  /** The remainder as C computes it. */
  function Rem(a: int, n: nat): int
    requires n > 0
  {
    if a >= 0 then a % n else -((-a) % n)
  }

  /** The early exit from INIT: too many slots are used up by statuses other than OK. */
  predicate Hopeless(cfg: Config, top: nat, ok: nat)
    requires cfg.Proper()
  {
    Rem(top - 1, cfg.windowSizeInit) + 1 - ok > cfg.windowSizeInit - cfg.init.minOk
  }

  /** One check, in either variant. */
  function Step(cfg: Config, m: Machine, status: uint8): (r: Machine)
    requires m.Fits(cfg)
    ensures |r.window| == |m.window|
  {
    match m.state
    case DEINIT => m
    case NODATA =>
      if cfg.transitToInvalidExtended then
        var a := Add(cfg, m, status);
        if a.top == 0 || a.top >= cfg.windowSizeInit then Reject(cfg, a)
        else if Starts(status) then Clear(cfg, a).(state := INIT)
        else a
      else if Starts(status) then m.(state := INIT)
      else m
    case INIT =>
      var a := Add(cfg, m, status);
      if cfg.init.Met(a.ok, a.error) then Promote(cfg, a)
      else if a.error > cfg.init.maxError || (cfg.transitToInvalidExtended && Hopeless(cfg, a.top, a.ok)) then
        Reject(cfg, a)
      else a
    case VALID =>
      var a := Add(cfg, m, status);
      if cfg.valid.Met(a.ok, a.error) then a else Demote(cfg, a)
    case INVALID =>
      var a := Add(cfg, m, status);
      if cfg.invalid.Met(a.ok, a.error) then Promote(cfg, a)
      else if cfg.transitToInvalidExtended && status == P_ERROR then Clear(cfg, a)
      else a
  }

  /** Checking is initialised by clearing the window of the previous state. */
  function Initial(cfg: Config, m: Machine): (r: Machine)
    requires cfg.Room(|m.window|)
    ensures |r.window| == |m.window|
  {
    Clear(cfg, m).(state := NODATA)
  }

  // ---- The code ----

  class SMCheckState {
    const window: array<uint8>
    var top: uint8
    var ok: uint8
    var error: uint8
    var state: State

    constructor (buffer: array<uint8>, state: State)
      ensures window == buffer && this.state == state && top == 0
    {
      window := buffer;
      this.state := state;
      top := 0;
      ok := 0;
      error := 0;
    }

    function Value(): Machine
      reads this, window
    {
      Machine(window[..], top, ok, error, state)
    }

    method CurrentWindowSize(cfg: Config) returns (n: uint8)
      ensures n == cfg.Size(state)
    {
      if state == VALID {
        n := cfg.windowSizeValid;
      } else if state == INIT {
        n := cfg.windowSizeInit;
      } else {
        n := cfg.windowSizeInvalid;
      }
    }

    method CountStatus(n: uint8, status: uint8) returns (count: uint8)
      requires n <= window.Length
      ensures count == Count(window[..n], status)
    {
      var index := 0;
      count := 0;
      while index < n
        invariant 0 <= index <= n && count <= index
        invariant count == Count(window[..index], status)
      {
        assert window[..index + 1] == window[..index] + [window[index]];
        if window[index] == status {
          count := count + 1;
        }
        index := index + 1;
      }
    }

    /** The first n slots become NOTAVAILABLE. */
    method ClearSlots(n: uint8)
      requires n <= window.Length
      modifies window
      ensures window[..] == Blank(n) + old(window[n..])
    {
      var index := 0;
      while index < n
        invariant 0 <= index <= n
        invariant forall k :: 0 <= k < index ==> window[k] == P_NOTAVAILABLE
        invariant forall k :: index <= k < window.Length ==> window[k] == old(window[k])
      {
        window[index] := P_NOTAVAILABLE;
        index := index + 1;
      }
    }

    method AddStatus(cfg: Config, status: uint8)
      requires Value().Fits(cfg)
      modifies this, window
      ensures Value() == Add(cfg, old(Value()), status)
    {
      window[top] := status;
      var n := CurrentWindowSize(cfg);
      ok := CountStatus(n, P_OK);
      error := CountStatus(n, P_ERROR);
      if top == n - 1 {
        top := 0;
      } else if top == 0xFF {
        top := 0;
      } else {
        top := top + 1;
      }
    }

    method ClearStatus(cfg: Config)
      requires cfg.Room(window.Length)
      modifies this, window
      ensures Value() == Clear(cfg, old(Value()))
    {
      var n := CurrentWindowSize(cfg);
      ClearSlots(n);
      ok := 0;
      error := 0;
      top := 0;
    }

    method ClearRemainingStatus(cfg: Config, next: State)
      requires next == VALID || next == INVALID
      requires cfg.Proper() && cfg.Room(window.Length)
      modifies this, window
      ensures Value() == ClearRemaining(cfg, old(Value()), next)
    {
      var current := CurrentWindowSize(cfg);
      var size: nat;
      if next == VALID {
        size := cfg.windowSizeValid;
      } else {
        size := cfg.windowSizeInvalid;
      }
      if current < size {
        ClearSlots(current - 1);
      }
    }

    method CheckInit(cfg: Config)
      requires cfg.Room(window.Length)
      modifies this, window
      ensures Value() == Initial(cfg, old(Value()))
    {
      var n := CurrentWindowSize(cfg);
      ClearSlots(n);
      top := 0;
      ok := 0;
      error := 0;
      state := NODATA;
    }

    method ToInvalid(cfg: Config)
      requires cfg.Proper() && cfg.Room(window.Length)
      modifies this, window
      ensures Value() == Reject(cfg, old(Value()))
    {
      if cfg.clearToInvalid {
        ClearStatus(cfg);
      } else {
        ClearRemainingStatus(cfg, INVALID);
      }
      state := INVALID;
    }

    /** In VALID both variants do the same. */
    method CheckValid(cfg: Config, status: uint8)
      requires Value().Fits(cfg) && state == VALID
      modifies this, window
      ensures Value() == Step(cfg, old(Value()), status)
    {
      AddStatus(cfg, status);
      if error <= cfg.valid.maxError && ok >= cfg.valid.minOk {
      } else {
        if cfg.clearToInvalid {
          ClearStatus(cfg);
        }
        state := INVALID;
      }
    }

    method CheckBeforeR2011(cfg: Config, status: uint8) returns (ret: Return)
      requires Value().Fits(cfg) && !cfg.transitToInvalidExtended
      modifies this, window
      ensures Value() == Step(cfg, old(Value()), status)
      ensures ret == if old(state) == DEINIT then WRONGSTATE else OK
    {
      ret := OK;
      match state
      case DEINIT =>
        ret := WRONGSTATE;
      case NODATA =>
        if status != P_ERROR && status != P_NONEWDATA {
          state := INIT;
        }
      case INIT =>
        AddStatus(cfg, status);
        if error <= cfg.init.maxError && ok >= cfg.init.minOk {
          ClearRemainingStatus(cfg, VALID);
          state := VALID;
        } else if error > cfg.init.maxError {
          ToInvalid(cfg);
        }
      case VALID =>
        CheckValid(cfg, status);
      case INVALID =>
        AddStatus(cfg, status);
        if error <= cfg.invalid.maxError && ok >= cfg.invalid.minOk {
          ClearRemainingStatus(cfg, VALID);
          state := VALID;
        }
    }

    method CheckInitR2011(cfg: Config, status: uint8)
      requires Value().Fits(cfg) && cfg.transitToInvalidExtended && state == INIT
      modifies this, window
      ensures Value() == Step(cfg, old(Value()), status)
    {
      AddStatus(cfg, status);
      if error <= cfg.init.maxError && ok >= cfg.init.minOk {
        ClearRemainingStatus(cfg, VALID);
        state := VALID;
      } else if error > cfg.init.maxError || Hopeless(cfg, top, ok) {
        ToInvalid(cfg);
      }
    }

    method CheckR2011(cfg: Config, status: uint8) returns (ret: Return)
      requires Value().Fits(cfg) && cfg.transitToInvalidExtended
      modifies this, window
      ensures Value() == Step(cfg, old(Value()), status)
      ensures ret == if old(state) == DEINIT then WRONGSTATE else OK
    {
      ret := OK;
      match state
      case DEINIT =>
        ret := WRONGSTATE;
      case NODATA =>
        AddStatus(cfg, status);
        if top == 0 || top >= cfg.windowSizeInit {
          ToInvalid(cfg);
        } else if status != P_ERROR && status != P_NONEWDATA {
          ClearStatus(cfg);
          state := INIT;
        }
      case INIT =>
        CheckInitR2011(cfg, status);
      case VALID =>
        CheckValid(cfg, status);
      case INVALID =>
        AddStatus(cfg, status);
        if error <= cfg.invalid.maxError && ok >= cfg.invalid.minOk {
          ClearRemainingStatus(cfg, VALID);
          state := VALID;
        } else if status == P_ERROR {
          ClearStatus(cfg);
        }
    }

    method Check(cfg: Config, status: uint8) returns (ret: Return)
      requires Value().Fits(cfg)
      modifies this, window
      ensures ret == if status > 5 then INPUTERR_WRONG else if old(state) == DEINIT then WRONGSTATE else OK
      ensures Value() == if status > 5 then old(Value()) else Step(cfg, old(Value()), status)
    {
      if status > 5 {
        ret := INPUTERR_WRONG;
      } else if cfg.transitToInvalidExtended {
        ret := CheckR2011(cfg, status);
      } else {
        ret := CheckBeforeR2011(cfg, status);
      }
    }
  }
}
