/** The Linux adapter: on a Wayland session it asks the XDG Desktop Portal's
    org.freedesktop.portal.Inhibit interface for an inhibit cookie and hides the
    window after a one-shot timer; on any other session it hides the window at
    once. Hiding is setting the window's opacity to 0.

    protectWindow is asynchronous on Wayland. It runs in three steps, and other
    calls and timers may run between them:
    - `Protect`: the call itself, up to the first `await`; it changes nothing
      but leaves a continuation waiting for the session bus;
    - `InhibitSettles`: the bus answers and the rest of requestInhibit runs
      (the cookie is stored, the answer is fixed);
    - `ProtectResumes`: the rest of protectWindow runs (timer or opacity 0,
      then the window joins the set). */
module LinuxAdapter {
  import opened Values

  /** The opaque value the portal's Inhibit call returns. */
  type Cookie = string

  /** The arguments of the Inhibit call; all of them are constants of the
      adapter. The flags value 4 is passed as written; this model gives it no
      meaning of its own. */
  datatype InhibitRequest = InhibitRequest(appId: string, flags: nat, reason: string)

  const INHIBIT_REQUEST := InhibitRequest("com.example.secureapp", 4, "Secure window \U{2014} prevent capture")

  const TRANSPARENT: real := 0.0
  const OPAQUE: real := 1.0

  /** How requestInhibit's bus work ends: the session bus, the portal object or
      its Inhibit interface could not be reached (so no Inhibit request was
      sent), the Inhibit request was sent and failed, or it returned a cookie. */
  datatype InhibitReply = NoPortal | Refused | Granted(cookie: Cookie)

  /** A protectWindow call suspended at an `await`: waiting for the session bus
      on behalf of `win`, or ready to resume with requestInhibit's answer. */
  datatype Continuation = AwaitingInhibit(win: WindowId) | Resuming(win: WindowId, ok: bool)

  /** The module-level `protectedWins` set and `cookies` map, the opacity last
      set on each window through setOpacity, the windows whose fallback timer
      (1000 ms, the same for all, so they fire in the order scheduled) is still
      pending, oldest first, the Inhibit requests sent so far, and the
      protectWindow calls suspended at an `await`. */
  datatype State = State(
    protectedWins: set<WindowId>,
    cookies: map<WindowId, Cookie>,
    opacity: map<WindowId, real>,
    pending: seq<WindowId>,
    inhibitRequests: seq<InhibitRequest>,
    inFlight: multiset<Continuation>)

  /** The state when the module is loaded. */
  const Initial := State({}, map[], map[], [], [], multiset{})

  /** The session type the adapter acts on: XDG_SESSION_TYPE, or "unknown" when
      that variable is unset or empty (JavaScript's `||` treats "" as false). */
  function SessionType(xdgSessionType: Option<string>): (t: string)
    ensures t != ""
    ensures t == "unknown" || xdgSessionType == Some(t)
    ensures xdgSessionType.Some? && xdgSessionType.value != "" ==> t == xdgSessionType.value
  {
    match xdgSessionType
    case Some(v) => if v != "" then v else "unknown"
    case None => "unknown"
  }

  /** requestInhibit once the bus has answered: an Inhibit request was sent
      unless the portal could not be reached; a cookie is stored for the window
      and the answer is true only when one came back. */
  function Inhibit(s: State, w: WindowId, reply: InhibitReply): (r: (bool, State))
    ensures r.0 <==> reply.Granted?
    ensures r.1.inhibitRequests ==
            if reply.NoPortal? then s.inhibitRequests else s.inhibitRequests + [INHIBIT_REQUEST]
    ensures r.0 ==> w in r.1.cookies && r.1.cookies[w] == reply.cookie && r.1.cookies - {w} == s.cookies - {w}
    ensures !r.0 ==> r.1.cookies == s.cookies
    ensures r.1.(cookies := s.cookies, inhibitRequests := s.inhibitRequests) == s
  {
    match reply
    case NoPortal => (false, s)
    case Refused => (false, s.(inhibitRequests := s.inhibitRequests + [INHIBIT_REQUEST]))
    case Granted(cookie) =>
      (true, s.(inhibitRequests := s.inhibitRequests + [INHIBIT_REQUEST],
                cookies := s.cookies[w := cookie]))
  }

  /** protectWindow up to its first `await`. Outside Wayland it runs to the end
      at once; on Wayland it only leaves a continuation behind. */
  function Protect(s: State, arg: Arg, xdgSessionType: Option<string>): (t: State)
    ensures !arg.BrowserWindow? ==> t == s
    ensures arg.BrowserWindow? && SessionType(xdgSessionType) != "wayland" ==>
      && t.protectedWins == s.protectedWins + {arg.win}
      && t.opacity == s.opacity[arg.win := TRANSPARENT]
      && t.(protectedWins := s.protectedWins, opacity := s.opacity) == s
    ensures arg.BrowserWindow? && SessionType(xdgSessionType) == "wayland" ==>
      && t.inFlight == s.inFlight + multiset{AwaitingInhibit(arg.win)}
      && t.(inFlight := s.inFlight) == s
  {
    match arg
    case NotBrowserWindow => s
    case BrowserWindow(w) =>
      var session := SessionType(xdgSessionType);
      if session == "wayland" then
        s.(inFlight := s.inFlight + multiset{AwaitingInhibit(w)})
      else if session == "x11" then
        s.(opacity := s.opacity[w := TRANSPARENT], protectedWins := s.protectedWins + {w})
      else
        s.(opacity := s.opacity[w := TRANSPARENT], protectedWins := s.protectedWins + {w})
  }

  /** The bus answers a suspended call for `w` and requestInhibit runs to its end. */
  function InhibitSettles(s: State, w: WindowId, reply: InhibitReply): (t: State)
    requires AwaitingInhibit(w) in s.inFlight
    ensures t.inFlight == s.inFlight - multiset{AwaitingInhibit(w)} + multiset{Resuming(w, reply.Granted?)}
    ensures t.(inFlight := s.inFlight) == Inhibit(s, w, reply).1
  {
    var r := Inhibit(s, w, reply);
    r.1.(inFlight := s.inFlight - multiset{AwaitingInhibit(w)} + multiset{Resuming(w, r.0)})
  }

  /** protectWindow resumes after `await requestInhibit(win)`: with a cookie it
      schedules the fallback timer, without one it makes the window transparent
      at once; either way the window joins the set. */
  function ProtectResumes(s: State, w: WindowId, ok: bool): (t: State)
    requires Resuming(w, ok) in s.inFlight
    ensures t.protectedWins == s.protectedWins + {w}
    ensures ok ==> t.pending == s.pending + [w] && t.opacity == s.opacity
    ensures !ok ==> t.pending == s.pending && t.opacity == s.opacity[w := TRANSPARENT]
    ensures t.cookies == s.cookies && t.inhibitRequests == s.inhibitRequests
    ensures t.inFlight == s.inFlight - multiset{Resuming(w, ok)}
  {
    var s1 := if ok then s.(pending := s.pending + [w])
              else s.(opacity := s.opacity[w := TRANSPARENT]);
    s1.(protectedWins := s1.protectedWins + {w}, inFlight := s.inFlight - multiset{Resuming(w, ok)})
  }

  /** A Wayland protectWindow for `w` when nothing else runs between its steps. */
  function ProtectOnWayland(s: State, w: WindowId, reply: InhibitReply): (t: State)
    ensures t.protectedWins == s.protectedWins + {w}
    ensures t.inFlight == s.inFlight
    ensures t.inhibitRequests ==
            if reply.NoPortal? then s.inhibitRequests else s.inhibitRequests + [INHIBIT_REQUEST]
    ensures !reply.Granted? ==>
      t.opacity == s.opacity[w := TRANSPARENT] && t.cookies == s.cookies && t.pending == s.pending
    ensures reply.Granted? ==>
      t.opacity == s.opacity && t.cookies == s.cookies[w := reply.cookie] && t.pending == s.pending + [w]
  {
    var s1 := Protect(s, BrowserWindow(w), Some("wayland"));
    var s2 := InhibitSettles(s1, w, reply);
    ProtectResumes(s2, w, reply.Granted?)
  }

  /** unprotectWindow: only for a window in the set, make it opaque again, drop
      its cookie without releasing it, and forget the window. */
  function Unprotect(s: State, arg: Arg): (t: State)
    ensures !arg.BrowserWindow? || arg.win !in s.protectedWins ==> t == s
    ensures arg.BrowserWindow? && arg.win in s.protectedWins ==>
      && arg.win !in t.protectedWins && arg.win !in t.cookies
      && arg.win in t.opacity && t.opacity[arg.win] == OPAQUE
      && t.protectedWins - {arg.win} == s.protectedWins - {arg.win}
      && t.cookies == s.cookies - {arg.win}
      && t.opacity - {arg.win} == s.opacity - {arg.win}
      && t.pending == s.pending && t.inhibitRequests == s.inhibitRequests
      && t.inFlight == s.inFlight
  {
    match arg
    case NotBrowserWindow => s
    case BrowserWindow(w) =>
      if w in s.protectedWins then
        var s1 := s.(opacity := s.opacity[w := OPAQUE]);
        var s2 := if w in s1.cookies then s1.(cookies := s1.cookies - {w}) else s1;
        s2.(protectedWins := s2.protectedWins - {w})
      else s
  }

  /** The oldest pending fallback timer fires and makes its window transparent,
      whether or not the window is still protected. */
  function TimerFires(s: State): (t: State)
    requires s.pending != []
    ensures |t.pending| == |s.pending| - 1 && t.pending == s.pending[1..]
    ensures s.pending[0] in t.opacity && t.opacity[s.pending[0]] == TRANSPARENT
    ensures t.opacity - {s.pending[0]} == s.opacity - {s.pending[0]}
    ensures t.protectedWins == s.protectedWins && t.cookies == s.cookies
    ensures t.inhibitRequests == s.inhibitRequests && t.inFlight == s.inFlight
  {
    var w := s.pending[0];
    s.(opacity := s.opacity[w := TRANSPARENT], pending := s.pending[1..])
  }

  /** Fires every pending timer, oldest first. */
  function Drain(s: State): (t: State)
    decreases |s.pending|
  {
    if s.pending == [] then s else Drain(TimerFires(s))
  }

  /** Window `w` is transparent, or a fallback timer for it is pending. */
  predicate Hidden(s: State, w: WindowId)
  {
    (w in s.opacity && s.opacity[w] == TRANSPARENT) || w in s.pending
  }

  /** The windows whose suspended protectWindow will resume with a cookie. */
  ghost function ResumingWithCookie(s: State): set<WindowId>
  {
    set c | c in s.inFlight && c.Resuming? && c.ok :: c.win
  }

  /** A cookie is held only for a protected window or one whose protectWindow
      is about to resume with it, and every protected window is transparent or
      about to be made so. */
  ghost predicate Inv(s: State)
  {
    && s.cookies.Keys <= s.protectedWins + ResumingWithCookie(s)
    && forall w :: w in s.protectedWins ==> Hidden(s, w)
  }

  lemma ProtectKeepsInv(s: State, arg: Arg, xdgSessionType: Option<string>)
    requires Inv(s)
    ensures Inv(Protect(s, arg, xdgSessionType))
  {
  }

  lemma InhibitSettlesKeepsInv(s: State, w: WindowId, reply: InhibitReply)
    requires Inv(s) && AwaitingInhibit(w) in s.inFlight
    ensures Inv(InhibitSettles(s, w, reply))
  {
  }

  lemma ProtectResumesKeepsInv(s: State, w: WindowId, ok: bool)
    requires Inv(s) && Resuming(w, ok) in s.inFlight
    ensures Inv(ProtectResumes(s, w, ok))
  {
  }

  lemma UnprotectKeepsInv(s: State, arg: Arg)
    requires Inv(s)
    ensures Inv(Unprotect(s, arg))
  {
  }

  lemma TimerFiresKeepsInv(s: State)
    requires Inv(s) && s.pending != []
    ensures Inv(TimerFires(s))
  {
  }

  /** Draining the timers makes exactly the windows they name transparent and
      touches nothing else. */
  lemma {:induction false} DrainOpacity(s: State, v: WindowId)
    ensures var t := Drain(s);
      && t.pending == []
      && t.(opacity := s.opacity, pending := s.pending) == s
      && (v in s.pending ==> v in t.opacity && t.opacity[v] == TRANSPARENT)
      && (v !in s.pending ==> (v in t.opacity <==> v in s.opacity))
      && (v !in s.pending && v in s.opacity ==> t.opacity[v] == s.opacity[v])
    decreases |s.pending|
  {
    if s.pending != [] {
      var s1 := TimerFires(s);
      DrainOpacity(s1, v);
      if v in s.pending && v != s.pending[0] {
        var i :| 0 <= i < |s.pending| && s.pending[i] == v;
        assert s1.pending[i - 1] == v;
      }
    }
  }

  /** Once every pending timer has fired, every protected window is
      transparent and no protection or cookie has changed. */
  lemma DrainHidesProtected(s: State)
    requires Inv(s)
    ensures var t := Drain(s);
      && t.pending == []
      && t.protectedWins == s.protectedWins && t.cookies == s.cookies
      && forall w :: w in t.protectedWins ==> w in t.opacity && t.opacity[w] == TRANSPARENT
  {
    var t := Drain(s);
    DrainOpacity(s, 0);
    forall w | w in t.protectedWins
      ensures w in t.opacity && t.opacity[w] == TRANSPARENT
    {
      DrainOpacity(s, w);
    }
  }

  /** The fallback timer is not cancelled by unprotectWindow: after a granted
      Wayland protect and an unprotect the window is opaque and out of the set,
      and once the timers have fired it is transparent again. */
  lemma TimerOutlivesUnprotect(s: State, w: WindowId, c: Cookie)
    ensures var s1 := ProtectOnWayland(s, w, Granted(c));
      var s2 := Unprotect(s1, BrowserWindow(w));
      var s3 := Drain(s2);
      && w !in s2.protectedWins && s2.opacity[w] == OPAQUE
      && w !in s3.protectedWins && w in s3.opacity && s3.opacity[w] == TRANSPARENT
  {
    var s1 := ProtectOnWayland(s, w, Granted(c));
    var s2 := Unprotect(s1, BrowserWindow(w));
    assert s2.pending[|s2.pending| - 1] == w;
    DrainOpacity(s2, w);
  }

  /** An unprotectWindow that runs after the cookie is stored but before
      protectWindow resumes drops the cookie, and the resumed call then puts the
      window back in the set, opaque, with no cookie and a timer pending. */
  lemma UnprotectBeforeResume(s: State, w: WindowId, c: Cookie)
    requires w in s.protectedWins
    ensures var s1 := Protect(s, BrowserWindow(w), Some("wayland"));
      var s2 := InhibitSettles(s1, w, Granted(c));
      var s3 := Unprotect(s2, BrowserWindow(w));
      var s4 := ProtectResumes(s3, w, true);
      && w in s4.protectedWins && w !in s4.cookies
      && w in s4.opacity && s4.opacity[w] == OPAQUE && w in s4.pending
  {
  }

  /** Protecting twice on Wayland with both requests granted sends two
      requests, schedules two timers and keeps only the second cookie. */
  lemma RepeatedWaylandProtect(s: State, w: WindowId, c1: Cookie, c2: Cookie)
    ensures var t := ProtectOnWayland(ProtectOnWayland(s, w, Granted(c1)), w, Granted(c2));
      && t.protectedWins == s.protectedWins + {w}
      && t.cookies == s.cookies[w := c2]
      && t.pending == s.pending + [w, w]
      && t.inhibitRequests == s.inhibitRequests + [INHIBIT_REQUEST, INHIBIT_REQUEST]
  {
    var s1 := ProtectOnWayland(s, w, Granted(c1));
    var t := ProtectOnWayland(s1, w, Granted(c2));
    assert t.cookies == s1.cookies[w := c2];
    assert t.pending == (s.pending + [w]) + [w];
    assert t.inhibitRequests == (s.inhibitRequests + [INHIBIT_REQUEST]) + [INHIBIT_REQUEST];
  }

  /** The module-level state of the Linux adapter, with the opacity of the
      host's windows as set through setOpacity and the protectWindow calls
      suspended at an `await`. */
  class Adapter {
    var protectedWins: set<WindowId>
    var cookies: map<WindowId, Cookie>
    var opacity: map<WindowId, real>
    var pending: seq<WindowId>
    var inhibitRequests: seq<InhibitRequest>
    var inFlight: multiset<Continuation>

    function Snapshot(): State
      reads this
    {
      State(protectedWins, cookies, opacity, pending, inhibitRequests, inFlight)
    }

    ghost predicate Valid()
      reads this
    {
      Inv(Snapshot())
    }

    constructor ()
      ensures Valid() && Snapshot() == Initial
    {
      protectedWins := {};
      cookies := map[];
      opacity := map[];
      pending := [];
      inhibitRequests := [];
      inFlight := multiset{};
    }

    /** requestInhibit, from the point where the bus work has ended. */
    method RequestInhibit(w: WindowId, reply: InhibitReply) returns (ok: bool)
      modifies this
      ensures (ok, Snapshot()) == Inhibit(old(Snapshot()), w, reply)
    {
      match reply {
        case NoPortal =>
          ok := false;
        case Refused =>
          inhibitRequests := inhibitRequests + [INHIBIT_REQUEST];
          ok := false;
        case Granted(cookie) =>
          inhibitRequests := inhibitRequests + [INHIBIT_REQUEST];
          cookies := cookies[w := cookie];
          ok := true;
      }
    }

    method ProtectWindow(arg: Arg, xdgSessionType: Option<string>)
      requires Valid()
      modifies this
      ensures Valid()
      ensures Snapshot() == Protect(old(Snapshot()), arg, xdgSessionType)
    {
      ProtectKeepsInv(Snapshot(), arg, xdgSessionType);
      if !arg.BrowserWindow? {
        return;
      }
      var w := arg.win;
      var session := SessionType(xdgSessionType);
      if session == "wayland" {
        inFlight := inFlight + multiset{AwaitingInhibit(w)};
      } else if session == "x11" {
        opacity := opacity[w := TRANSPARENT];
        protectedWins := protectedWins + {w};
      } else {
        opacity := opacity[w := TRANSPARENT];
        protectedWins := protectedWins + {w};
      }
    }

    /** The session bus answers a suspended protectWindow for `w`. */
    method SettleInhibit(w: WindowId, reply: InhibitReply)
      requires Valid() && AwaitingInhibit(w) in inFlight
      modifies this
      ensures Valid()
      ensures Snapshot() == InhibitSettles(old(Snapshot()), w, reply)
    {
      InhibitSettlesKeepsInv(Snapshot(), w, reply);
      var ok := RequestInhibit(w, reply);
      inFlight := inFlight - multiset{AwaitingInhibit(w)} + multiset{Resuming(w, ok)};
    }

    /** A suspended protectWindow for `w` resumes with requestInhibit's answer. */
    method ResumeProtect(w: WindowId, ok: bool)
      requires Valid() && Resuming(w, ok) in inFlight
      modifies this
      ensures Valid()
      ensures Snapshot() == ProtectResumes(old(Snapshot()), w, ok)
    {
      ghost var s := Snapshot();
      ProtectResumesKeepsInv(s, w, ok);
      if ok {
        pending := pending + [w];
      } else {
        opacity := opacity[w := TRANSPARENT];
      }
      protectedWins := protectedWins + {w};
      inFlight := inFlight - multiset{Resuming(w, ok)};
      assert Snapshot() == ProtectResumes(s, w, ok);
    }

    method UnprotectWindow(arg: Arg)
      requires Valid()
      modifies this
      ensures Valid()
      ensures Snapshot() == Unprotect(old(Snapshot()), arg)
    {
      UnprotectKeepsInv(Snapshot(), arg);
      if !arg.BrowserWindow? {
        return;
      }
      var w := arg.win;
      if w in protectedWins {
        opacity := opacity[w := OPAQUE];
        if w in cookies {
          cookies := cookies - {w};
        }
        protectedWins := protectedWins - {w};
      }
    }

    /** The event loop runs the oldest pending fallback callback. */
    method FireTimer()
      requires Valid() && pending != []
      modifies this
      ensures Valid()
      ensures Snapshot() == TimerFires(old(Snapshot()))
    {
      TimerFiresKeepsInv(Snapshot());
      var w := pending[0];
      opacity := opacity[w := TRANSPARENT];
      pending := pending[1..];
    }
  }
}
