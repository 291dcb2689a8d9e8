/** Mouse tracking (linux_term.hpp): the escape sequences that switch xterm's
    any-event reporting and SGR coordinate encoding on and off, the
    `enable_mouse_t` guard, and the flag the signal handlers consult. */
module MouseTracking {
  /** SET_ANY_EVENT_MOUSE (private mode 1003) and SET_SGR_EXT_MODE_MOUSE
      (private mode 1006), each set with `h` and reset with `l`. */
  const SetAnyEvent: string := "\U{1B}[?1003h"
  const ResetAnyEvent: string := "\U{1B}[?1003l"
  const SetSgr: string := "\U{1B}[?1006h"
  const ResetSgr: string := "\U{1B}[?1006l"

  /** What `enable_mouse_tracking` and `disable_mouse_tracking` write, one
      8-byte write per mode. */
  const EnableWrites: seq<string> := [SetAnyEvent, SetSgr]
  const DisableWrites: seq<string> := [ResetSgr, ResetAnyEvent]

  /** Whether a private mode is on after the given writes: the last write
      that sets or resets it decides, and it starts off. */
  function Mode(writes: seq<string>, on: string, off: string): (r: bool)
    requires on != off
    ensures r ==> on in writes
    decreases |writes|
  {
    if writes == [] then false
    else
      var last := writes[|writes| - 1];
      if last == on then true
      else if last == off then false
      else Mode(writes[..|writes| - 1], on, off)
  }

  /** The terminal reports mouse events in SGR form exactly when both modes
      are on. */
  function TrackingOn(writes: seq<string>): bool {
    Mode(writes, SetAnyEvent, ResetAnyEvent) && Mode(writes, SetSgr, ResetSgr)
  }

  /** The reset sequence of a set sequence: the final `h` becomes `l`. */
  function Inverse(w: string): string {
    if w != [] && w[|w| - 1] == 'h' then w[..|w| - 1] + "l" else w
  }

  function Reverse<T>(s: seq<T>): (r: seq<T>)
    ensures |r| == |s| && forall i | 0 <= i < |s| :: r[i] == s[|s| - 1 - i]
  {
    if s == [] then [] else Reverse(s[1..]) + [s[0]]
  }

  function MapInverse(ws: seq<string>): (r: seq<string>)
    ensures |r| == |ws| && forall i | 0 <= i < |ws| :: r[i] == Inverse(ws[i])
  {
    if ws == [] then [] else [Inverse(ws[0])] + MapInverse(ws[1..])
  }

  /** Disabling writes the inverse sequences in the reverse order. */
  lemma DisableUndoesEnable()
    ensures DisableWrites == Reverse(MapInverse(EnableWrites))
  {
    assert Inverse(SetSgr) == ResetSgr;
    assert Inverse(SetAnyEvent) == ResetAnyEvent;
  }

  /** Whatever was written before, enabling switches tracking on. */
  lemma EnableTurnsOn(writes: seq<string>)
    ensures TrackingOn(writes + EnableWrites)
  {
    var ws := writes + EnableWrites;
    assert ws[|ws| - 1] == SetSgr;
    assert ws[..|ws| - 1] == writes + [SetAnyEvent];
    assert (writes + [SetAnyEvent])[|writes|] == SetAnyEvent;
  }

  /** Whatever was written before, disabling switches tracking off. */
  lemma DisableTurnsOff(writes: seq<string>)
    ensures !TrackingOn(writes + DisableWrites)
    ensures !Mode(writes + DisableWrites, SetAnyEvent, ResetAnyEvent)
    ensures !Mode(writes + DisableWrites, SetSgr, ResetSgr)
  {
    var ws := writes + DisableWrites;
    assert ws[|ws| - 1] == ResetAnyEvent;
    assert ws[..|ws| - 1] == writes + [ResetSgr];
    assert (writes + [ResetSgr])[|writes|] == ResetSgr;
  }

  /** The terminal output and the process-wide `require_mouse` flag. */
  class Terminal {
    var writes: seq<string>
    var requireMouse: bool

    constructor()
      ensures writes == [] && !requireMouse
    {
      writes := [];
      requireMouse := false;
    }

    /** `enable_mouse_tracking`. */
    method EnableMouseTracking()
      modifies this
      ensures writes == old(writes) + EnableWrites && requireMouse == old(requireMouse)
      ensures TrackingOn(writes)
    {
      writes := writes + [SetAnyEvent];
      writes := writes + [SetSgr];
      assert writes == old(writes) + EnableWrites;
      EnableTurnsOn(old(writes));
    }

    /** `disable_mouse_tracking`. */
    method DisableMouseTracking()
      modifies this
      ensures writes == old(writes) + DisableWrites && requireMouse == old(requireMouse)
      ensures !TrackingOn(writes)
    {
      writes := writes + [ResetSgr];
      writes := writes + [ResetAnyEvent];
      assert writes == old(writes) + DisableWrites;
      DisableTurnsOff(old(writes));
    }

    /** The `enable_mouse_t` constructor: enable, then raise the flag. */
    method AcquireMouseGuard()
      modifies this
      ensures writes == old(writes) + EnableWrites && requireMouse
      ensures TrackingOn(writes)
    {
      EnableMouseTracking();
      requireMouse := true;
    }

    /** The `enable_mouse_t` destructor: disable, then clear the flag. The
        flag is cleared whatever other guard may still be alive. */
    method ReleaseMouseGuard()
      modifies this
      ensures writes == old(writes) + DisableWrites && !requireMouse
      ensures !TrackingOn(writes)
    {
      DisableMouseTracking();
      requireMouse := false;
    }

    /** The mouse part of the fatal-signal and SIGTSTP handlers: tracking is
        switched off only when a guard raised the flag. */
    method RestoreOnSignal()
      modifies this
      ensures writes == old(writes) + (if old(requireMouse) then DisableWrites else [])
      ensures requireMouse == old(requireMouse)
      ensures requireMouse ==> !TrackingOn(writes)
    {
      if requireMouse {
        DisableMouseTracking();
      }
    }

    /** The mouse part of the SIGCONT handler: tracking is switched back on
        only when a guard raised the flag. */
    method ResumeOnSignal()
      modifies this
      ensures writes == old(writes) + (if old(requireMouse) then EnableWrites else [])
      ensures requireMouse == old(requireMouse)
      ensures requireMouse ==> TrackingOn(writes)
    {
      if requireMouse {
        EnableMouseTracking();
      }
    }
  }

  /** A guard held across a stop (SIGTSTP) and a continue (SIGCONT): tracking
      is off while stopped and on again after the continue. */
  method StopAndContinue() returns (whileStopped: bool, afterContinue: bool)
    ensures !whileStopped && afterContinue
  {
    var t := new Terminal();
    t.AcquireMouseGuard();
    t.RestoreOnSignal();
    whileStopped := TrackingOn(t.writes);
    t.ResumeOnSignal();
    afterContinue := TrackingOn(t.writes);
  }

  /** Two guards acquired and one released: the flag is down and tracking is
      off, although a guard is still alive. */
  method NestedGuards() returns (tracking: bool, requireMouse: bool, writes: seq<string>)
    ensures !tracking && !requireMouse
    ensures writes == EnableWrites + EnableWrites + DisableWrites
  {
    var t := new Terminal();
    t.AcquireMouseGuard();
    t.AcquireMouseGuard();
    t.ReleaseMouseGuard();
    tracking, requireMouse, writes := TrackingOn(t.writes), t.requireMouse, t.writes;
  }
}
