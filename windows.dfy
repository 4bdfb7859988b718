/** The Windows adapter: capture exclusion through the Win32 display-affinity
    flag of a window, and the module-level set of windows it has protected. */
module WindowsAdapter {
  import opened Values

  /** Flag values for SetWindowDisplayAffinity. */
  const WDA_NONE: nat := 0x0000_0000
  /** Excludes the window from screen recording, remote desktop and the like. */
  const WDA_MONITOR: nat := 0x0000_0001

  /** What the native side does when the adapter reaches for it: fetching the
      native handle throws (no affinity call is made), the ffi call throws, or
      the ffi call returns its bool. */
  datatype NativeOutcome = HandleThrew | CallThrew | Returned(result: bool)

  /** One call into SetWindowDisplayAffinity, and whether it reported success. */
  datatype AffinityCall = AffinityCall(win: WindowId, flag: nat, reportedOk: bool)

  /** The adapter's state (`protectedWins`) together with the log of affinity
      calls it has made, which is the adapter's only effect on the system. */
  datatype State = State(protectedWins: set<WindowId>, calls: seq<AffinityCall>)

  /** The state when the module is loaded. */
  const Initial := State({}, [])

  /** The affinity call that an attempt with `flag` on window `w` makes. */
  function NativeCall(w: WindowId, flag: nat, out: NativeOutcome): (c: Option<AffinityCall>)
    ensures c.None? <==> out == HandleThrew
    ensures c.Some? ==> c.value.win == w && c.value.flag == flag
    ensures c.Some? ==> (c.value.reportedOk <==> out == Returned(true))
  {
    match out
    case HandleThrew => None
    case CallThrew => Some(AffinityCall(w, flag, false))
    case Returned(result) => Some(AffinityCall(w, flag, result))
  }

  /** The call log after `c`, if a call was made. */
  function Record(calls: seq<AffinityCall>, c: Option<AffinityCall>): seq<AffinityCall>
  {
    if c.Some? then calls + [c.value] else calls
  }

  /** protectWindow: ask for WDA_MONITOR and remember the window only when the
      native call reports success; errors are swallowed. */
  function Protect(s: State, arg: Arg, out: NativeOutcome): (t: State)
    ensures !arg.BrowserWindow? ==> t == s
    ensures arg.BrowserWindow? ==>
      && (arg.win in t.protectedWins <==> arg.win in s.protectedWins || out == Returned(true))
      && t.protectedWins - {arg.win} == s.protectedWins - {arg.win}
      && t.calls == Record(s.calls, NativeCall(arg.win, WDA_MONITOR, out))
  {
    match arg
    case NotBrowserWindow => s
    case BrowserWindow(w) =>
      match out
      case HandleThrew => s
      case CallThrew => s.(calls := s.calls + [AffinityCall(w, WDA_MONITOR, false)])
      case Returned(result) =>
        State(if result then s.protectedWins + {w} else s.protectedWins,
              s.calls + [AffinityCall(w, WDA_MONITOR, result)])
  }

  /** unprotectWindow: only for a window in the set, ask for WDA_NONE and forget
      the window only when the native call reports success. */
  function Unprotect(s: State, arg: Arg, out: NativeOutcome): (t: State)
    ensures !arg.BrowserWindow? || arg.win !in s.protectedWins ==> t == s
    ensures arg.BrowserWindow? && arg.win in s.protectedWins ==>
      && (arg.win in t.protectedWins <==> out != Returned(true))
      && t.protectedWins - {arg.win} == s.protectedWins - {arg.win}
      && t.calls == Record(s.calls, NativeCall(arg.win, WDA_NONE, out))
  {
    match arg
    case NotBrowserWindow => s
    case BrowserWindow(w) =>
      if w !in s.protectedWins then s
      else
        match out
        case HandleThrew => s
        case CallThrew => s.(calls := s.calls + [AffinityCall(w, WDA_NONE, false)])
        case Returned(result) =>
          State(if result then s.protectedWins - {w} else s.protectedWins,
                s.calls + [AffinityCall(w, WDA_NONE, result)])
  }

  /** The flag of the last call on `w` that reported success, if any. */
  function LastGrantedFlag(calls: seq<AffinityCall>, w: WindowId): Option<nat>
  {
    if calls == [] then None
    else
      var c := calls[|calls| - 1];
      if c.win == w && c.reportedOk then Some(c.flag)
      else LastGrantedFlag(calls[..|calls| - 1], w)
  }

  /** The set mirrors the native side: a window is in `protectedWins` exactly
      when the last affinity call on it that reported success set WDA_MONITOR. */
  ghost predicate Inv(s: State)
  {
    forall v :: v in s.protectedWins <==> LastGrantedFlag(s.calls, v) == Some(WDA_MONITOR)
  }

  lemma ProtectKeepsInv(s: State, arg: Arg, out: NativeOutcome)
    requires Inv(s)
    ensures Inv(Protect(s, arg, out))
  {
  }

  lemma UnprotectKeepsInv(s: State, arg: Arg, out: NativeOutcome)
    requires Inv(s)
    ensures Inv(Unprotect(s, arg, out))
  {
  }

  /** Protecting twice with success keeps one membership but calls the native
      function twice. */
  lemma RepeatedProtect(s: State, w: WindowId)
    ensures var t := Protect(Protect(s, BrowserWindow(w), Returned(true)), BrowserWindow(w), Returned(true));
      && t.protectedWins == s.protectedWins + {w}
      && t.calls == s.calls + [AffinityCall(w, WDA_MONITOR, true), AffinityCall(w, WDA_MONITOR, true)]
  {
  }

  /** A successful protect followed by a successful unprotect restores the set
      and leaves WDA_NONE as the window's last granted flag. */
  lemma ProtectUnprotectRoundTrip(s: State, w: WindowId)
    requires w !in s.protectedWins
    ensures var t := Unprotect(Protect(s, BrowserWindow(w), Returned(true)), BrowserWindow(w), Returned(true));
      && t.protectedWins == s.protectedWins
      && LastGrantedFlag(t.calls, w) == Some(WDA_NONE)
  {
  }

  /** The module-level state of the Windows adapter. */
  class Adapter {
    var protectedWins: set<WindowId>
    var calls: seq<AffinityCall>

    function Snapshot(): State
      reads this
    {
      State(protectedWins, calls)
    }

    ghost predicate Valid()
      reads this
    {
      Inv(Snapshot())
    }

    constructor ()
      ensures Valid() && Snapshot() == Initial
    {
      protectedWins := {};
      calls := [];
    }

    method ProtectWindow(arg: Arg, out: NativeOutcome)
      requires Valid()
      modifies this
      ensures Valid()
      ensures Snapshot() == Protect(old(Snapshot()), arg, out)
    {
      ProtectKeepsInv(Snapshot(), arg, out);
      if !arg.BrowserWindow? {
        return;
      }
      var w := arg.win;
      match out {
        case HandleThrew =>
        case CallThrew =>
          calls := calls + [AffinityCall(w, WDA_MONITOR, false)];
        case Returned(result) =>
          calls := calls + [AffinityCall(w, WDA_MONITOR, result)];
          if result {
            protectedWins := protectedWins + {w};
          }
      }
    }

    method UnprotectWindow(arg: Arg, out: NativeOutcome)
      requires Valid()
      modifies this
      ensures Valid()
      ensures Snapshot() == Unprotect(old(Snapshot()), arg, out)
    {
      UnprotectKeepsInv(Snapshot(), arg, out);
      if !arg.BrowserWindow? {
        return;
      }
      var w := arg.win;
      if w in protectedWins {
        match out {
          case HandleThrew =>
          case CallThrew =>
            calls := calls + [AffinityCall(w, WDA_NONE, false)];
          case Returned(result) =>
            calls := calls + [AffinityCall(w, WDA_NONE, result)];
            if result {
              protectedWins := protectedWins - {w};
            }
        }
      }
    }
  }
}
