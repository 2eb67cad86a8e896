/**
 * Keyboard control of the desktop recorder (windows.py): a double press of the
 * global shortcut toggles recording (`MainWindow.on_hotkey_triggered`,
 * `toggle_recording`, `start_recording`, `stop_recording`), and
 * `ShortcutDialog` captures a new shortcut key while it is listening.
 * Time is integer milliseconds.
 */
module Hotkeys {
  import opened Wrappers
  import opened Strings

  /** Two presses closer than this many milliseconds form a double press (0.5 s). */
  const DoublePressMs := 500

  const LoginFirst := "Veuillez vous connecter d'abord"

  /** The recording part of `MainWindow`'s state. */
  class Recorder {
    var token: Option<string>
    var isRecording: bool
    /** `self.recorder_thread is not None`. */
    var hasRecorderThread: bool
    var lastPressTime: int

    /** A recording always has its recorder thread. */
    ghost predicate Valid()
      reads this
    {
      isRecording ==> hasRecorderThread
    }

    constructor()
      ensures Valid()
      ensures token == None && !isRecording && !hasRecorderThread && lastPressTime == 0
    {
      token := None;
      isRecording := false;
      hasRecorderThread := false;
      lastPressTime := 0;
    }

    /** `toggle_recording`: without a token, only an error message; otherwise start or stop. */
    method ToggleRecording() returns (error: Option<string>)
      requires Valid()
      modifies this
      ensures Valid()
      ensures token == old(token) && lastPressTime == old(lastPressTime)
      ensures !HasToken(token) ==>
        error == Some(LoginFirst) && isRecording == old(isRecording) && hasRecorderThread == old(hasRecorderThread)
      ensures HasToken(token) ==> error == None && isRecording == !old(isRecording)
    {
      if !HasToken(token) {
        return Some(LoginFirst);
      }
      if !isRecording {
        StartRecording();
      } else {
        StopRecording();
      }
      error := None;
    }

    /** `start_recording` once `check_and_refresh_token` has seen a token (it then returns True). */
    method StartRecording()
      requires HasToken(token)
      modifies this`isRecording, this`hasRecorderThread
      ensures isRecording && hasRecorderThread
    {
      isRecording := true;
      hasRecorderThread := true;
    }

    /** `stop_recording`: only acts when a recorder thread exists. */
    method StopRecording()
      modifies this`isRecording
      ensures isRecording == (old(isRecording) && !hasRecorderThread)
    {
      if hasRecorderThread {
        isRecording := false;
      }
    }

    /** `on_hotkey_triggered` at time `now`: a press within 0.5 s of the previous one toggles
        recording; every press becomes the new previous press. */
    method OnHotkeyTriggered(now: int) returns (toggled: bool, error: Option<string>)
      requires Valid()
      modifies this
      ensures Valid()
      ensures toggled <==> now - old(lastPressTime) < DoublePressMs
      ensures lastPressTime == now && token == old(token)
      ensures toggled && HasToken(token) ==> isRecording == !old(isRecording) && error == None
      ensures toggled && !HasToken(token) ==> isRecording == old(isRecording) && error == Some(LoginFirst)
      ensures !toggled ==> isRecording == old(isRecording) && error == None
    {
      toggled := now - lastPressTime < DoublePressMs;
      error := None;
      if toggled {
        error := ToggleRecording();
      }
      lastPressTime := now;
    }
  }

  /** Two presses at `t1` then `t2` toggle recording exactly when `t2 - t1 < 500`; the
      first press after the program starts (previous press at 0) toggles only before 0.5 s. */
  method DoublePressScenario(t1: int, t2: int) returns (recording: bool)
    requires t1 >= DoublePressMs
    ensures recording <==> t2 - t1 < DoublePressMs
  {
    var r := new Recorder();
    r.token := Some("token");
    var toggled1, _ := r.OnHotkeyTriggered(t1);
    assert !toggled1 && !r.isRecording;
    var toggled2, _ := r.OnHotkeyTriggered(t2);
    recording := r.isRecording;
  }

  const Modifiers: seq<string> := ["SHIFT", "CTRL", "ALT"]

  /** The `on_key` rule: the upper-cased key name is not a modifier and is one
      character long or starts with 'F'. */
  predicate AcceptsKey(keyName: string) {
    var k := UpperAscii(keyName);
    k !in Modifiers && (|k| == 1 || StartsWith(k, "F"))
  }

  /** Upper-casing twice is upper-casing once. */
  lemma {:induction false} UpperAsciiIdempotent(s: string)
    ensures UpperAscii(UpperAscii(s)) == UpperAscii(s)
  {
    var u := UpperAscii(s);
    assert forall k :: 0 <= k < |u| ==> !('a' <= u[k] <= 'z');
  }

  /** The stored shortcut is itself an acceptable key name, and it never names a modifier. */
  lemma StoredShortcutAccepted(keyName: string)
    requires AcceptsKey(keyName)
    ensures AcceptsKey(UpperAscii(keyName))
    ensures UpperAscii(keyName) != "SHIFT" && UpperAscii(keyName) != "CTRL" && UpperAscii(keyName) != "ALT"
  {
    UpperAsciiIdempotent(keyName);
  }

  /** A modifier key alone is refused whatever its case. */
  lemma ShiftRefused()
    ensures !AcceptsKey("shift") && !AcceptsKey("Shift")
  {
    assert UpperAscii("shift") == "SHIFT";
    assert UpperAscii("Shift") == "SHIFT";
  }

  /** A function key is accepted: "f12" upper-cases to "F12". */
  lemma FunctionKeyAccepted()
    ensures AcceptsKey("f12")
  {
    assert UpperAscii("f12") == "F12";
  }

  /** A longer named key that does not start with 'F' is refused. */
  lemma SpaceRefused()
    ensures !AcceptsKey("space")
  {
    assert UpperAscii("space") == "SPACE";
  }

  /** `ShortcutDialog`: the key capture state. */
  class ShortcutDialog {
    var currentShortcut: string
    var newShortcut: Option<string>
    var isListening: bool

    constructor(currentShortcut: string)
      ensures this.currentShortcut == currentShortcut && newShortcut == None && !isListening
    {
      this.currentShortcut := currentShortcut;
      newShortcut := None;
      isListening := false;
    }

    /** `toggle_listening`. */
    method ToggleListening()
      modifies this`isListening
      ensures isListening == !old(isListening)
    {
      isListening := !isListening;
    }

    /** `on_key`: an accepted key becomes the new shortcut and stops listening; anything else changes nothing. */
    method OnKey(keyName: string) returns (accepted: bool)
      modifies this`newShortcut, this`isListening
      ensures accepted <==> old(isListening) && AcceptsKey(keyName)
      ensures accepted ==> newShortcut == Some(UpperAscii(keyName)) && !isListening
      ensures !accepted ==> newShortcut == old(newShortcut) && isListening == old(isListening)
    {
      accepted := false;
      if isListening {
        var k := UpperAscii(keyName);
        if k !in Modifiers {
          if |k| == 1 || StartsWith(k, "F") {
            newShortcut := Some(k);
            isListening := false;
            accepted := true;
          }
        }
      }
    }

    /** `closeEvent` stops listening. */
    method Close()
      modifies this`isListening
      ensures !isListening
    {
      isListening := false;
    }
  }
}
