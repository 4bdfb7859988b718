# Secure display, modelled in Dafny

This project models the secure-display subsystem of the Genie desktop
application: the part that tries to keep chosen Electron windows out of
screen captures, recordings and screen shares.

- `index.dfy` (module `SecureDisplay`) models `index.js`, which picks one
  adapter module from the OS platform string when it is loaded: `win32`
  gets the Windows adapter, `linux` the Linux adapter, `darwin` the macOS
  adapter, and anything else a stub whose `protectWindow` only logs a warning.
  It also runs any sequence of calls against the adapter chosen at load.
- `windows.dfy` (module `WindowsAdapter`) models `windows.js`. It keeps a set
  of protected windows. `protectWindow` calls `SetWindowDisplayAffinity` with
  `WDA_MONITOR` (1). `unprotectWindow` calls it with `WDA_NONE` (0). Each
  changes the set only when the call returns true. Errors are swallowed.
- `linux.dfy` (module `LinuxAdapter`) models `linux.js`. It keeps a set of
  protected windows and a window-to-cookie map. On a Wayland session it sends
  an `org.freedesktop.portal.Inhibit` request. With a cookie, it stores the
  cookie and schedules a 1000 ms timer that sets the window's opacity to 0.
  Without one, it sets the opacity to 0 at once. On any other session type it
  sets the opacity to 0 at once. `unprotectWindow` on a protected window sets
  the opacity back to 1, drops the cookie and forgets the window.
- `values.dfy` (module `Values`) holds the window identity, the argument
  type and `Option`.

Each adapter comes twice. A pure `State` datatype with step functions
(`Protect`, `Unprotect`, ...) is the specification, and the lemmas are about it.
A class `Adapter` holds the module-level state as fields. Its methods change
those fields in place, as the JavaScript does. Each method's postcondition says
its new state is the step function applied to the old state. Each method that
stands for a whole step keeps the class invariant `Valid()`. The Linux
`RequestInhibit` is the exception: it is the inner part of `SettleInhibit`, and
a cookie it stores is covered by the invariant only once `SettleInhibit` has
also updated the suspended calls.

The outside world is modelled as inputs:
- the native affinity call is a `NativeOutcome`: getting the handle threw,
  the call threw, or it returned a bool;
- how `requestInhibit`'s bus work ends is an `InhibitReply`: the bus, portal
  object or interface could not be reached (`NoPortal`, no request sent), the
  Inhibit request was sent and failed (`Refused`), or it returned a cookie
  (`Granted`);
- `XDG_SESSION_TYPE` is an `Option<string>` read at each Linux `protectWindow`;
- `setOpacity` is recorded in an opacity map;
- `setTimeout` adds the window to a queue of pending timers, and `TimerFires`
  runs the oldest one.

The Linux `protectWindow` is `async`. On Wayland it runs in three steps, and
other calls and timers may run between them. `Protect` is the call up to its
first `await`; it only leaves a continuation behind. `InhibitSettles` is the
bus answering: the rest of `requestInhibit` runs, logs the request (unless the
portal could not be reached) and stores the cookie. `ProtectResumes` is the
rest of `protectWindow`: the timer or opacity 0, then the window joins the set.
The suspended calls are a multiset of continuations in the state, and
`SecureDisplay.Event` has one event per step. `ProtectOnWayland` is the three
steps with nothing in between. `UnprotectBeforeResume` shows what an
`unprotectWindow` between the second and third step leaves: a protected,
opaque window with no cookie and a timer pending.

The two invariants proved for every reachable state are:
- Windows: a window is in `protectedWins` exactly when the last affinity call
  on it that reported success set `WDA_MONITOR`.
- Linux: a cookie is held only for a protected window or for one whose
  suspended `protectWindow` is about to resume with that cookie, and every
  protected window is transparent or has a pending fallback timer. Once all
  timers have fired, every protected window is transparent.

The model follows the code as written, including where it falls short of
what such a subsystem is usually expected to do:
- A failed Windows `unprotectWindow` leaves the window protected.
- `unprotectWindow` on Linux never releases the cookie (no `Uninhibit` call).
  It only deletes the map entry.
- Nothing prunes state when a window is destroyed.
- The fallback timer is never cancelled. A timer that fires after
  `unprotectWindow` makes the window transparent again
  (`TimerOutlivesUnprotect`).
- `unprotectWindow` restores opacity only for a window in the set.
- Protecting twice on Wayland sends two inhibit requests and keeps only the
  second cookie. The first is lost, not released (`RepeatedWaylandProtect`).
- Every Wayland success also gets the opacity fallback, after the delay.
- The platform is classified once, at module load. Only the Linux session
  type is read again at each call.

## Model

| member | source | states |
|---|---|---|
| `SecureDisplay.SelectAdapter` | genie-desktop/public/secure-display/index.js:5-20 | each of "win32", "darwin", "linux" selects its own adapter, and exactly the other strings select the stub (both directions for each) |
| `SecureDisplay.Load` | genie-desktop/public/secure-display/index.js:3-22 | the loaded exports are the selected adapter, with its module state empty |
| `SecureDisplay.Apply` | genie-desktop/public/secure-display/index.js:15-22 | a call never changes which adapter is bound; a protectWindow or unprotectWindow call on the Windows or Linux exports is exactly that adapter's `Protect` or `Unprotect`; the stub and the macOS adapter keep no state; no timer or continuation reaches the Windows adapter; on Linux a bus answer, a resumption or a timer runs its step exactly when the call or timer is waiting, and changes nothing otherwise |
| `SecureDisplay.RunThenApply` | genie-desktop/public/secure-display/index.js:22 | events are handled one after another, in order: running a sequence and then one more event is that event applied, by the bound adapter, to the state the sequence left |
| `SecureDisplay.ApplyKeepsValid` | genie-desktop/public/secure-display/index.js:5-22 | whichever adapter is bound, one call or timer keeps its invariant |
| `SecureDisplay.RunKeepsChoice` | genie-desktop/public/secure-display/index.js:22 | no sequence of calls changes the bound adapter: the choice is made once |
| `SecureDisplay.StubIgnoresCalls` | genie-desktop/public/secure-display/index.js:15-19 | any sequence of calls on the stub leaves it as it was |
| `SecureDisplay.RunKeepsValid` | genie-desktop/public/secure-display/index.js:5-22 | any sequence of calls and timers keeps the bound adapter's invariant |
| `SecureDisplay.LoadedAdapterStaysValid` | genie-desktop/public/secure-display/index.js:3-22 | from load on, for every platform and every sequence of calls, the adapter chosen from the platform handles the calls and its invariant holds |
| `WindowsAdapter.NativeCall` | genie-desktop/public/secure-display/windows.js:19-21 | an affinity call is made unless getting the native handle throws; it carries the window and the flag; it counts as successful exactly when it returns true |
| `WindowsAdapter.Protect` | genie-desktop/public/secure-display/windows.js:15-31 | a non-BrowserWindow changes nothing and makes no call; otherwise one WDA_MONITOR call is attempted, and the window is in the set afterwards iff it was before or the call returned true; no other window's membership changes |
| `WindowsAdapter.Unprotect` | genie-desktop/public/secure-display/windows.js:33-51 | a non-BrowserWindow or a window not in the set changes nothing and makes no call; otherwise one WDA_NONE call is attempted, and the window stays in the set iff the call did not return true |
| `WindowsAdapter.ProtectKeepsInv` | genie-desktop/public/secure-display/windows.js:21-24 | protectWindow keeps the set equal to the windows whose last successful affinity call set WDA_MONITOR |
| `WindowsAdapter.UnprotectKeepsInv` | genie-desktop/public/secure-display/windows.js:40-43 | unprotectWindow keeps the set equal to the windows whose last successful affinity call set WDA_MONITOR |
| `WindowsAdapter.RepeatedProtect` | genie-desktop/public/secure-display/windows.js:21-24 | two successful protects give one membership but two WDA_MONITOR calls |
| `WindowsAdapter.ProtectUnprotectRoundTrip` | genie-desktop/public/secure-display/windows.js:15-51 | a successful protect then a successful unprotect restores the set, and WDA_NONE is the window's last granted flag |
| `WindowsAdapter.Adapter.constructor` | genie-desktop/public/secure-display/windows.js:13 | the module starts with an empty set and no calls, and its invariant holds |
| `WindowsAdapter.Adapter.ProtectWindow` | genie-desktop/public/secure-display/windows.js:15-31 | updates the fields in place to exactly the state `Protect` gives, keeping the invariant |
| `WindowsAdapter.Adapter.UnprotectWindow` | genie-desktop/public/secure-display/windows.js:33-51 | updates the fields in place to exactly the state `Unprotect` gives, keeping the invariant |
| `LinuxAdapter.SessionType` | genie-desktop/public/secure-display/linux.js:40 | the session type is never empty; it is XDG_SESSION_TYPE when that is set and non-empty, and otherwise "unknown" |
| `LinuxAdapter.Inhibit` | genie-desktop/public/secure-display/linux.js:7-34 | an Inhibit request with the fixed app id, flags and reason is logged unless the portal could not be reached; the answer is true iff a cookie came back; only then is the cookie stored for the window, replacing any earlier one; nothing else changes |
| `LinuxAdapter.Protect` | genie-desktop/public/secure-display/linux.js:37-68 | a non-BrowserWindow changes nothing; outside Wayland the window gets opacity 0 and joins the set at once, with no request, cookie or timer; on Wayland nothing changes but one continuation waiting for the bus |
| `LinuxAdapter.InhibitSettles` | genie-desktop/public/secure-display/linux.js:7-34 | a waiting call for the window is replaced by one that resumes with true iff a cookie came back, and the state otherwise changes exactly as `Inhibit` says |
| `LinuxAdapter.ProtectResumes` | genie-desktop/public/secure-display/linux.js:45-59 | the window joins the set; resuming with true queues one timer and leaves the opacity alone, with false sets opacity 0 at once and queues nothing; cookies and requests unchanged; the continuation is consumed |
| `LinuxAdapter.ProtectOnWayland` | genie-desktop/public/secure-display/linux.js:37-59 | an uninterrupted Wayland protect: the window is protected; no portal gives opacity 0 and no request, a refusal gives opacity 0 and one request, a grant stores the cookie, logs one request, leaves the opacity alone and queues one timer; no continuation is left |
| `LinuxAdapter.Unprotect` | genie-desktop/public/secure-display/linux.js:71-86 | on a protected window: opacity 1, no cookie, not in the set, all other windows, the timers and the suspended calls unchanged; on anything else: no change at all |
| `LinuxAdapter.TimerFires` | genie-desktop/public/secure-display/linux.js:48-53 | the oldest timer sets its window's opacity to 0 whether or not the window is still protected, and leaves the set, the cookies and the suspended calls alone |
| `LinuxAdapter.ProtectKeepsInv` | genie-desktop/public/secure-display/linux.js:37-68 | the call phase of protectWindow keeps: cookies only for protected windows or ones about to resume with a cookie, and each protected window transparent or with a pending timer |
| `LinuxAdapter.InhibitSettlesKeepsInv` | genie-desktop/public/secure-display/linux.js:25-29 | the bus answering keeps the same invariant, the stored cookie being covered by the continuation that resumes with true |
| `LinuxAdapter.ProtectResumesKeepsInv` | genie-desktop/public/secure-display/linux.js:45-59 | a resumed protectWindow keeps the same invariant |
| `LinuxAdapter.UnprotectKeepsInv` | genie-desktop/public/secure-display/linux.js:71-86 | unprotectWindow keeps the same invariant |
| `LinuxAdapter.TimerFiresKeepsInv` | genie-desktop/public/secure-display/linux.js:48-53 | a timer firing keeps the same invariant |
| `LinuxAdapter.DrainOpacity` | genie-desktop/public/secure-display/linux.js:48-53 | firing every pending timer makes exactly the windows they name transparent and changes nothing else |
| `LinuxAdapter.DrainHidesProtected` | genie-desktop/public/secure-display/linux.js:46-67 | once every pending timer has fired, every protected window is transparent, and no protection or cookie changed |
| `LinuxAdapter.TimerOutlivesUnprotect` | genie-desktop/public/secure-display/linux.js:48-53 | from any state, after a granted Wayland protect and an unprotect the window is opaque and out of the set; once the timers have fired it is transparent though no longer protected |
| `LinuxAdapter.UnprotectBeforeResume` | genie-desktop/public/secure-display/linux.js:28-59 | an unprotect between the cookie being stored and protectWindow resuming leaves the window protected, opaque, with no cookie and a timer pending |
| `LinuxAdapter.RepeatedWaylandProtect` | genie-desktop/public/secure-display/linux.js:25-59 | two granted Wayland protects keep one membership, send two requests, queue two timers and keep only the second cookie |
| `LinuxAdapter.Adapter.constructor` | genie-desktop/public/secure-display/linux.js:4-5 | the module starts with an empty set, an empty cookie map, no timers and no suspended calls, and its invariant holds |
| `LinuxAdapter.Adapter.RequestInhibit` | genie-desktop/public/secure-display/linux.js:7-34 | updates the fields in place and answers exactly as `Inhibit` does |
| `LinuxAdapter.Adapter.ProtectWindow` | genie-desktop/public/secure-display/linux.js:37-68 | updates the fields in place to exactly the state `Protect` gives, keeping the invariant |
| `LinuxAdapter.Adapter.SettleInhibit` | genie-desktop/public/secure-display/linux.js:7-34 | runs `RequestInhibit` for a waiting call and updates the fields to exactly the state `InhibitSettles` gives, keeping the invariant |
| `LinuxAdapter.Adapter.ResumeProtect` | genie-desktop/public/secure-display/linux.js:45-59 | updates the fields in place to exactly the state `ProtectResumes` gives, keeping the invariant |
| `LinuxAdapter.Adapter.UnprotectWindow` | genie-desktop/public/secure-display/linux.js:71-86 | updates the fields in place to exactly the state `Unprotect` gives, keeping the invariant |
| `LinuxAdapter.Adapter.FireTimer` | genie-desktop/public/secure-display/linux.js:48-53 | the oldest pending callback updates the fields to exactly the state `TimerFires` gives, keeping the invariant |

## Left out

- The ffi binding to `user32` and the D-Bus session bus, proxy and interface
  lookup are not implemented. Their results are inputs (`NativeOutcome`,
  `InhibitReply`).
- The Inhibit arguments (app id, flags 4, reason) are opaque constants. In the
  XDG Desktop Portal Inhibit interface, flag 4 means suspend, not screen
  sharing. The model claims no screen-sharing meaning for it.
- All `console` output, including the stub's warning, is left out.
- Real time is left out. `setTimeout` is a FIFO queue of pending timers. All
  timers have the same 1000 ms delay, so they fire in the order scheduled.
- The `./mac` adapter module is not part of this model. When it is chosen,
  the model records no effect of calls on it.
- Window identity is a number. The weak references of `WeakSet` and garbage
  collection of windows are not modelled. The code has no destroy handling.
- Suspended Linux `protectWindow` calls may resume in any order in the model
  (a multiset of continuations). The real event loop resolves them in the
  order the bus answers, which the model does not fix; every such order is
  included. The two `await`s inside `requestInhibit` are one step, since
  nothing changes between them.
- An `Adapter` object models one loaded module. Two loads of the same module
  sharing state are not modelled.
- The UI components, the overlay, the Python backend, the Electron main
  process, the preload bridge and the React entry points are not part of
  this model.
