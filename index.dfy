/** The entry point of the secure-display subsystem: one adapter module is
    chosen from the OS platform string when the module is loaded, and every
    later protectWindow / unprotectWindow call goes to that adapter. */
module SecureDisplay {
  import opened Values
  import WindowsAdapter
  import LinuxAdapter

  /** The adapter bound to `module.exports`. */
  datatype Choice = WindowsJs | MacJs | LinuxJs | Stub

  /** The switch over the platform string: "win32", "darwin" and "linux" pick
      their adapter module, every other string gets the stub. */
  function SelectAdapter(platform: string): (c: Choice)
    ensures c == WindowsJs <==> platform == "win32"
    ensures c == MacJs <==> platform == "darwin"
    ensures c == LinuxJs <==> platform == "linux"
    ensures c == Stub <==> platform != "win32" && platform != "darwin" && platform != "linux"
  {
    match platform
    case "win32" => WindowsJs
    case "darwin" => MacJs
    case "linux" => LinuxJs
    case _ => Stub
  }

  /** The exported adapter together with its module-level state. The macOS
      adapter module is not part of this model, so it carries no state here;
      the stub has none: its protectWindow only logs a warning and its
      unprotectWindow does nothing. */
  datatype Exports =
    | WindowsExports(windows: WindowsAdapter.State)
    | MacExports
    | LinuxExports(linux: LinuxAdapter.State)
    | StubExports

  function ChoiceOf(e: Exports): Choice
  {
    match e
    case WindowsExports(_) => WindowsJs
    case MacExports => MacJs
    case LinuxExports(_) => LinuxJs
    case StubExports => Stub
  }

  /** Loading the module: the adapter is chosen once, and its module state
      starts empty. */
  function Load(platform: string): (e: Exports)
    ensures ChoiceOf(e) == SelectAdapter(platform)
    ensures e.WindowsExports? ==> e.windows == WindowsAdapter.Initial
    ensures e.LinuxExports? ==> e.linux == LinuxAdapter.Initial
  {
    match SelectAdapter(platform)
    case WindowsJs => WindowsExports(WindowsAdapter.Initial)
    case MacJs => MacExports
    case LinuxJs => LinuxExports(LinuxAdapter.Initial)
    case Stub => StubExports
  }

  /** How the outside world answers whichever adapter reaches out during one
      call: the Win32 affinity call and the XDG_SESSION_TYPE variable at that
      moment. */
  datatype World = World(
    native: WindowsAdapter.NativeOutcome,
    xdgSessionType: Option<string>)

  /** A call on the exported adapter, or the event loop running something
      that was left for later: the session bus answering a suspended Linux
      protectWindow for `win`, such a call resuming with requestInhibit's
      answer, or the oldest pending timer callback. */
  datatype Event =
    | ProtectWindow(arg: Arg, world: World)
    | UnprotectWindow(arg: Arg, world: World)
    | InhibitSettles(win: WindowId, reply: LinuxAdapter.InhibitReply)
    | ProtectResumes(win: WindowId, ok: bool)
    | TimerFires

  /** One event, handled by the adapter bound at load time: a call runs that
      adapter's own protectWindow or unprotectWindow. The event loop only runs
      a continuation or a timer that is waiting; any other such event changes
      nothing. */
  function Apply(e: Exports, ev: Event): (r: Exports)
    ensures ChoiceOf(r) == ChoiceOf(e)
    ensures e.MacExports? || e.StubExports? ==> r == e
    ensures e.WindowsExports? && ev.ProtectWindow? ==>
      r == WindowsExports(WindowsAdapter.Protect(e.windows, ev.arg, ev.world.native))
    ensures e.WindowsExports? && ev.UnprotectWindow? ==>
      r == WindowsExports(WindowsAdapter.Unprotect(e.windows, ev.arg, ev.world.native))
    ensures e.WindowsExports? && !(ev.ProtectWindow? || ev.UnprotectWindow?) ==> r == e
    ensures e.LinuxExports? && ev.ProtectWindow? ==>
      r == LinuxExports(LinuxAdapter.Protect(e.linux, ev.arg, ev.world.xdgSessionType))
    ensures e.LinuxExports? && ev.UnprotectWindow? ==>
      r == LinuxExports(LinuxAdapter.Unprotect(e.linux, ev.arg))
    ensures e.LinuxExports? && ev.InhibitSettles? ==>
      r == if LinuxAdapter.AwaitingInhibit(ev.win) in e.linux.inFlight
           then LinuxExports(LinuxAdapter.InhibitSettles(e.linux, ev.win, ev.reply))
           else e
    ensures e.LinuxExports? && ev.ProtectResumes? ==>
      r == if LinuxAdapter.Resuming(ev.win, ev.ok) in e.linux.inFlight
           then LinuxExports(LinuxAdapter.ProtectResumes(e.linux, ev.win, ev.ok))
           else e
    ensures e.LinuxExports? && ev.TimerFires? ==>
      r == if e.linux.pending == [] then e else LinuxExports(LinuxAdapter.TimerFires(e.linux))
  {
    match e
    case WindowsExports(s) =>
      (match ev
       case ProtectWindow(arg, world) => WindowsExports(WindowsAdapter.Protect(s, arg, world.native))
       case UnprotectWindow(arg, world) => WindowsExports(WindowsAdapter.Unprotect(s, arg, world.native))
       case _ => e)
    case LinuxExports(s) =>
      (match ev
       case ProtectWindow(arg, world) => LinuxExports(LinuxAdapter.Protect(s, arg, world.xdgSessionType))
       case UnprotectWindow(arg, _) => LinuxExports(LinuxAdapter.Unprotect(s, arg))
       case InhibitSettles(w, reply) =>
         if LinuxAdapter.AwaitingInhibit(w) in s.inFlight
         then LinuxExports(LinuxAdapter.InhibitSettles(s, w, reply)) else e
       case ProtectResumes(w, ok) =>
         if LinuxAdapter.Resuming(w, ok) in s.inFlight
         then LinuxExports(LinuxAdapter.ProtectResumes(s, w, ok)) else e
       case TimerFires => if s.pending == [] then e else LinuxExports(LinuxAdapter.TimerFires(s)))
    case MacExports => e
    case StubExports => e
  }

  /** A sequence of events, in order. */
  function Run(e: Exports, evs: seq<Event>): Exports
    decreases |evs|
  {
    if evs == [] then e else Run(Apply(e, evs[0]), evs[1..])
  }

  /** Running a sequence and then one more event is handling that event in
      the state the sequence left: the events are handled one after another,
      in order, each by the bound adapter. */
  lemma {:induction false} RunThenApply(e: Exports, evs: seq<Event>, ev: Event)
    ensures Run(e, evs + [ev]) == Apply(Run(e, evs), ev)
    decreases |evs|
  {
    if evs == [] {
      assert [] + [ev] == [ev];
    } else {
      assert (evs + [ev])[1..] == evs[1..] + [ev];
      RunThenApply(Apply(e, evs[0]), evs[1..], ev);
    }
  }

  /** The bound adapter's invariant. */
  ghost predicate Valid(e: Exports)
  {
    match e
    case WindowsExports(s) => WindowsAdapter.Inv(s)
    case LinuxExports(s) => LinuxAdapter.Inv(s)
    case MacExports => true
    case StubExports => true
  }

  lemma ApplyKeepsValid(e: Exports, ev: Event)
    requires Valid(e)
    ensures Valid(Apply(e, ev))
  {
    if e.LinuxExports? {
      var s := e.linux;
      match ev
      case ProtectWindow(arg, world) => LinuxAdapter.ProtectKeepsInv(s, arg, world.xdgSessionType);
      case UnprotectWindow(arg, _) => LinuxAdapter.UnprotectKeepsInv(s, arg);
      case InhibitSettles(w, reply) =>
        if LinuxAdapter.AwaitingInhibit(w) in s.inFlight {
          LinuxAdapter.InhibitSettlesKeepsInv(s, w, reply);
        }
      case ProtectResumes(w, ok) =>
        if LinuxAdapter.Resuming(w, ok) in s.inFlight {
          LinuxAdapter.ProtectResumesKeepsInv(s, w, ok);
        }
      case TimerFires =>
        if s.pending != [] {
          LinuxAdapter.TimerFiresKeepsInv(s);
        }
    }
  }

  /** The adapter is bound once: no sequence of calls changes which one
      handles them. */
  lemma {:induction false} RunKeepsChoice(e: Exports, evs: seq<Event>)
    ensures ChoiceOf(Run(e, evs)) == ChoiceOf(e)
    decreases |evs|
  {
    if evs != [] {
      RunKeepsChoice(Apply(e, evs[0]), evs[1..]);
    }
  }

  /** The stub keeps no state: no sequence of calls changes it. */
  lemma {:induction false} StubIgnoresCalls(evs: seq<Event>)
    ensures Run(StubExports, evs) == StubExports
    decreases |evs|
  {
    if evs != [] {
      StubIgnoresCalls(evs[1..]);
    }
  }

  lemma {:induction false} RunKeepsValid(e: Exports, evs: seq<Event>)
    requires Valid(e)
    ensures Valid(Run(e, evs))
    decreases |evs|
  {
    if evs != [] {
      ApplyKeepsValid(e, evs[0]);
      RunKeepsValid(Apply(e, evs[0]), evs[1..]);
    }
  }

  /** From module load on, whatever the calls and whatever the native side
      answers, the adapter chosen from the platform handles every call and
      its invariant holds: on Windows the set matches the last successful
      affinity flag of each window, on Linux every protected window is
      transparent or has a pending fallback timer, and a cookie is held only
      for a protected window or one about to be protected with it. */
  lemma LoadedAdapterStaysValid(platform: string, evs: seq<Event>)
    ensures ChoiceOf(Run(Load(platform), evs)) == SelectAdapter(platform)
    ensures Valid(Run(Load(platform), evs))
  {
    RunKeepsChoice(Load(platform), evs);
    RunKeepsValid(Load(platform), evs);
  }
}
