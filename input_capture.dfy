/** `InputCapture` (pc-app/input_capture.py): the gate between the local
    mouse and keyboard and the stream of input events sent to the device.
    The pynput listeners, the screeninfo query and the clock are outside
    the model: what they deliver (coordinates, keys, the monitor list, the
    time in milliseconds, whether the 60 Hz rate limit lets a move through)
    arrives as parameters. The Qt signals are the sequences `events` and
    `log`, which only grow. */
module InputCapturing {
  import opened Wrappers
  import opened Text

  /** The dict `input_event` carries, one constructor per 'type'. Key
      presses carry 'pressed': True and releases 'pressed': False. */
  datatype InputEvent =
    | ControlSwitch(edge: string, timestamp: int)
    | MouseMove(x: int, y: int, timestamp: int)
    | MouseClick(x: int, y: int, button: string, pressed: bool, timestamp: int)
    | MouseScroll(x: int, y: int, dx: int, dy: int, timestamp: int)
    | KeyPress(key: string, keyCode: int, timestamp: int)
    | KeyRelease(key: string, keyCode: int, timestamp: int)
  {
    /** The events the device acts on only while it holds control. */
    predicate IsPointer()
    {
      MouseMove? || MouseClick? || MouseScroll?
    }
  }

  /** The messages of `log_message`. */
  datatype LogEntry =
    | ScreenDimensions(width: int, height: int)  // "Screen dimensions: {w}x{h}"
    | ScreenDimensionsError                     // "Error getting screen dimensions: {e}"
    | StartingCapture                           // "Starting input capture..."
    | CaptureStarted                            // "Input capture started"
    | StoppingCapture                           // "Stopping input capture..."
    | CaptureStopped                            // "Input capture stopped"
    | SwitchingToDevice(edge: string)           // "Switching control to Android device (edge: {edge})"
    | SwitchingBackToPc                         // "Switching control back to PC"
    | SwitchingToDeviceByHotkey                 // "Switching control to Android device"
    | ControlReturnedToPc                       // "Control returned to PC"

  /** A monitor as screeninfo reports it. */
  datatype Monitor = Monitor(width: int, height: int)

  /** A pynput key: one with a character, or any other key object, given by
      its `str()` ("Key.shift" for the special keys). */
  datatype Key = CharKey(ch: char) | OtherKey(text: string)

  const ReturnToPc := "return_to_pc"
  const Hotkey := "hotkey"

  /** Whether the device holds control after receiving these events, as it
      tracks it: a control_switch with edge "return_to_pc" gives control
      back to the PC, any other control_switch hands it to the device, and
      other events leave it as it was. Initially the PC holds control. */
  function Engaged(events: seq<InputEvent>): bool
  {
    if events == [] then false
    else
      var last := events[|events| - 1];
      if last.ControlSwitch? then last.edge != ReturnToPc else Engaged(events[..|events| - 1])
  }

  lemma EngagedSnoc(events: seq<InputEvent>, e: InputEvent)
    ensures Engaged(events + [e]) == if e.ControlSwitch? then e.edge != ReturnToPc else Engaged(events)
  {
    assert (events + [e])[..|events|] == events;
  }

  /** Event i, if it is a pointer event, was emitted while the device held
      control. */
  ghost predicate GatedAt(events: seq<InputEvent>, i: nat)
    requires i < |events|
  {
    events[i].IsPointer() ==> Engaged(events[..i])
  }

  /** The device never receives a pointer event it would drop. */
  ghost predicate Gated(events: seq<InputEvent>)
  {
    forall i :: 0 <= i < |events| ==> GatedAt(events, i)
  }

  /** Appending an event that is not a pointer event, or one emitted while
      the device holds control, keeps the stream gated. */
  lemma GatedSnoc(events: seq<InputEvent>, e: InputEvent)
    requires Gated(events)
    requires e.IsPointer() ==> Engaged(events)
    ensures Gated(events + [e])
  {
    var all := events + [e];
    forall i | 0 <= i < |all|
      ensures GatedAt(all, i)
    {
      assert all[..i] == if i < |events| then events[..i] else events;
      if i < |events| {
        assert GatedAt(events, i);
      }
    }
  }

  /** `get_special_key_code`'s table. */
  const SpecialKeyCodes: map<string, int> :=
    map["shift" := 16, "ctrl" := 17, "alt" := 18, "cmd" := 91, "space" := 32, "enter" := 13,
        "backspace" := 8, "tab" := 9, "escape" := 27, "delete" := 46, "home" := 36, "end" := 35,
        "page_up" := 33, "page_down" := 34, "up" := 38, "down" := 40, "left" := 37, "right" := 39,
        "f1" := 112, "f2" := 113, "f3" := 114, "f4" := 115, "f5" := 116, "f6" := 117,
        "f7" := 118, "f8" := 119, "f9" := 120, "f10" := 121, "f11" := 122, "f12" := 123]

  /** `get_special_key_code`: the table entry for the lower-cased name, 0
      for a name not in the table (no entry is 0). */
  function GetSpecialKeyCode(keyStr: string): (code: int)
    ensures code != 0 <==> Lower(keyStr) in SpecialKeyCodes
    ensures code != 0 ==> code == SpecialKeyCodes[Lower(keyStr)]
    ensures 0 <= code <= 123
  {
    var name := Lower(keyStr);
    if name in SpecialKeyCodes then SpecialKeyCodes[name] else 0
  }

  /** The lookup ignores case: a name and its lower-case form get the same
      code. */
  lemma SpecialKeyCodeIgnoresCase(keyStr: string)
    ensures GetSpecialKeyCode(keyStr) == GetSpecialKeyCode(Lower(keyStr))
  {
    LowerIdempotent(keyStr);
  }

  /** The 'key' and 'key_code' of a key event: a character key gives its
      character and code point; any other key gives its `str()` with
      "Key." removed, looked up in the table. */
  function KeyFields(key: Key): (string, int)
  {
    match key
    case CharKey(c) => ([c], c as int)
    case OtherKey(text) =>
      var keyStr := Without(text, "Key.");
      (keyStr, GetSpecialKeyCode(keyStr))
  }

  /** A special key `Key.<name>` is reported by its name and the code for
      it: "Key.shift" gives ("shift", 16). */
  lemma SpecialKeyFields(name: string)
    requires !Occurs(name, "Key.")
    ensures KeyFields(OtherKey("Key." + name)) == (name, GetSpecialKeyCode(name))
  {
    WithoutPrefix("Key.", name);
  }

  class InputCapture {
    var active: bool
    var mouseListening: bool
    var keyboardListening: bool
    var screenWidth: int
    var screenHeight: int
    const edgeThreshold: int := 10
    var controlActive: bool
    var lastX: int
    var lastY: int
    var lastMouseTime: int
    var events: seq<InputEvent>
    var log: seq<LogEntry>

    /** The listeners run exactly while capture is active; the PC and the
        device agree on who holds control, and every pointer event sent
        was sent while the device held it. */
    ghost predicate Valid()
      reads this
    {
      && mouseListening == active && keyboardListening == active
      && controlActive == Engaged(events)
      && Gated(events)
    }

    /** `__init__`, with `update_screen_dimensions` given screeninfo's
        answer: None when the query raises. */
    constructor (monitors: Option<seq<Monitor>>)
      ensures Valid()
      ensures !active && !controlActive && events == []
      ensures lastX == 0 && lastY == 0 && lastMouseTime == 0
      ensures monitors.Some? && monitors.value != [] ==>
                && screenWidth == monitors.value[0].width && screenHeight == monitors.value[0].height
                && log == [ScreenDimensions(screenWidth, screenHeight)]
      ensures monitors == Some([]) ==> screenWidth == 1920 && screenHeight == 1080 && log == []
      ensures monitors.None? ==> screenWidth == 1920 && screenHeight == 1080 && log == [ScreenDimensionsError]
    {
      active, mouseListening, keyboardListening := false, false, false;
      screenWidth, screenHeight := 1920, 1080;
      controlActive := false;
      lastX, lastY, lastMouseTime := 0, 0, 0;
      events, log := [], [];
      new;
      UpdateScreenDimensions(monitors);
    }

    /** `update_screen_dimensions`: the first monitor's size, when there is
        one. */
    method UpdateScreenDimensions(monitors: Option<seq<Monitor>>)
      modifies this`screenWidth, this`screenHeight, this`log
      ensures monitors.Some? && monitors.value != [] ==>
                && screenWidth == monitors.value[0].width && screenHeight == monitors.value[0].height
                && log == old(log) + [ScreenDimensions(screenWidth, screenHeight)]
      ensures monitors == Some([]) ==> unchanged(this)
      ensures monitors.None? ==>
                screenWidth == old(screenWidth) && screenHeight == old(screenHeight)
                && log == old(log) + [ScreenDimensionsError]
    {
      match monitors
      case None =>
        log := log + [ScreenDimensionsError];
      case Some(found) =>
        if found != [] {
          screenWidth, screenHeight := found[0].width, found[0].height;
          log := log + [ScreenDimensions(screenWidth, screenHeight)];
        }
    }

    /** `start_capture`: nothing happens if capture is already active. */
    method StartCapture()
      requires Valid()
      modifies this`active, this`mouseListening, this`keyboardListening, this`log
      ensures Valid()
      ensures old(active) ==> unchanged(this)
      ensures !old(active) ==> active && log == old(log) + [StartingCapture, CaptureStarted]
    {
      if active {
        return;
      }
      active := true;
      log := log + [StartingCapture];
      mouseListening, keyboardListening := true, true;
      log := log + [CaptureStarted];
    }

    /** `stop_capture`: nothing happens if capture is not active. */
    method StopCapture()
      requires Valid()
      modifies this`active, this`mouseListening, this`keyboardListening, this`log
      ensures Valid()
      ensures !old(active) ==> unchanged(this)
      ensures old(active) ==> !active && log == old(log) + [StoppingCapture, CaptureStopped]
    {
      if !active {
        return;
      }
      active := false;
      log := log + [StoppingCapture];
      mouseListening, keyboardListening := false, false;
      log := log + [CaptureStopped];
    }

    /** Whether (x, y) lies on the given edge of the screen, within the
        threshold. */
    ghost predicate OnEdge(edge: string, x: int, y: int)
      reads this
    {
      || (edge == "left" && x <= edgeThreshold)
      || (edge == "right" && x >= screenWidth - edgeThreshold)
      || (edge == "top" && y <= edgeThreshold)
      || (edge == "bottom" && y >= screenHeight - edgeThreshold)
    }

    /** `check_screen_edge_switch`: the first of left, right, top and
        bottom that (x, y) lies on, None when it is on no edge. A corner
        therefore reports its left or right edge. */
    function CheckScreenEdgeSwitch(x: int, y: int): (edge: Option<string>)
      reads this
      ensures edge.Some? <==>
                OnEdge("left", x, y) || OnEdge("right", x, y) || OnEdge("top", x, y) || OnEdge("bottom", x, y)
      ensures edge.Some? ==> edge.value in ["left", "right", "top", "bottom"] && OnEdge(edge.value, x, y)
      ensures edge == Some("right") ==> !OnEdge("left", x, y)
      ensures edge == Some("top") ==> !OnEdge("left", x, y) && !OnEdge("right", x, y)
      ensures edge == Some("bottom") ==> !OnEdge("left", x, y) && !OnEdge("right", x, y) && !OnEdge("top", x, y)
    {
      if x <= edgeThreshold then Some("left")
      else if x >= screenWidth - edgeThreshold then Some("right")
      else if y <= edgeThreshold then Some("top")
      else if y >= screenHeight - edgeThreshold then Some("bottom")
      else None
    }

    /** `on_mouse_move` at time now; throttled is the rate limit's verdict
        (less than 1/60 s since the last move that went through). A move
        onto an edge while the PC holds control hands control to the device
        with one control_switch naming the edge; otherwise a mouse_move is
        sent only while the device holds control. */
    method OnMouseMove(x: int, y: int, now: int, throttled: bool)
      requires Valid()
      modifies this`lastMouseTime, this`lastX, this`lastY, this`controlActive, this`events, this`log
      ensures Valid()
      ensures !old(active) || throttled ==> unchanged(this)
      ensures old(active) && !throttled ==> lastMouseTime == now && lastX == x && lastY == y
      ensures old(active) && !throttled && CheckScreenEdgeSwitch(x, y).Some? && !old(controlActive) ==>
                var edge := CheckScreenEdgeSwitch(x, y).value;
                && controlActive
                && events == old(events) + [ControlSwitch(edge, now)]
                && log == old(log) + [SwitchingToDevice(edge)]
      ensures old(active) && !throttled && !(CheckScreenEdgeSwitch(x, y).Some? && !old(controlActive)) ==>
                && controlActive == old(controlActive) && log == old(log)
                && events == old(events) + (if controlActive then [MouseMove(x, y, now)] else [])
    {
      if !active {
        return;
      }
      if throttled {
        return;
      }
      lastMouseTime, lastX, lastY := now, x, y;
      var edge := CheckScreenEdgeSwitch(x, y);
      if edge.Some? && !controlActive {
        controlActive := true;
        log := log + [SwitchingToDevice(edge.value)];
        Emit(ControlSwitch(edge.value, now));
        return;
      }
      if controlActive {
        Emit(MouseMove(x, y, now));
      }
    }

    /** `on_mouse_click`: sent only while capture is active and the device
        holds control; the button is named by its `str()` without
        "Button.". */
    method OnMouseClick(x: int, y: int, button: string, pressed: bool, now: int)
      requires Valid()
      modifies this`events
      ensures Valid()
      ensures old(active) && controlActive ==>
                events == old(events) + [MouseClick(x, y, Without(button, "Button."), pressed, now)]
      ensures !(old(active) && controlActive) ==> unchanged(this)
    {
      if !active || !controlActive {
        return;
      }
      var buttonName := Without(button, "Button.");
      Emit(MouseClick(x, y, buttonName, pressed, now));
    }

    /** `on_mouse_scroll`: sent only while capture is active and the device
        holds control. */
    method OnMouseScroll(x: int, y: int, dx: int, dy: int, now: int)
      requires Valid()
      modifies this`events
      ensures Valid()
      ensures old(active) && controlActive ==> events == old(events) + [MouseScroll(x, y, dx, dy, now)]
      ensures !(old(active) && controlActive) ==> unchanged(this)
    {
      if !active || !controlActive {
        return;
      }
      Emit(MouseScroll(x, y, dx, dy, now));
    }

    /** `on_key_press`: sent whenever capture is active, whoever holds
        control; control never changes hands here. */
    method OnKeyPress(key: Key, now: int)
      requires Valid()
      modifies this`controlActive, this`events, this`log
      ensures Valid()
      ensures old(active) ==>
                && controlActive == old(controlActive) && log == old(log)
                && events == old(events) + [KeyPress(KeyFields(key).0, KeyFields(key).1, now)]
      ensures !old(active) ==> unchanged(this)
    {
      if !active {
        return;
      }
      var (keyStr, keyCode) := KeyFields(key);
      // The hotkey branch, which would call ToggleControl, is left out:
      // `is_control_toggle_hotkey` is a placeholder that answers False for
      // every key.
      Emit(KeyPress(keyStr, keyCode, now));
    }

    /** `on_key_release`: sent whenever capture is active. */
    method OnKeyRelease(key: Key, now: int)
      requires Valid()
      modifies this`events
      ensures Valid()
      ensures old(active) ==> events == old(events) + [KeyRelease(KeyFields(key).0, KeyFields(key).1, now)]
      ensures !old(active) ==> unchanged(this)
    {
      if !active {
        return;
      }
      var (keyStr, keyCode) := KeyFields(key);
      Emit(KeyRelease(keyStr, keyCode, now));
    }

    /** `toggle_control`: control changes hands, and the device is told so
        with edge "return_to_pc" or "hotkey". */
    method ToggleControl(now: int)
      requires Valid()
      modifies this`controlActive, this`events, this`log
      ensures Valid()
      ensures controlActive == !old(controlActive)
      ensures old(controlActive) ==>
                events == old(events) + [ControlSwitch(ReturnToPc, now)] && log == old(log) + [SwitchingBackToPc]
      ensures !old(controlActive) ==>
                events == old(events) + [ControlSwitch(Hotkey, now)] && log == old(log) + [SwitchingToDeviceByHotkey]
    {
      if controlActive {
        controlActive := false;
        log := log + [SwitchingBackToPc];
        Emit(ControlSwitch(ReturnToPc, now));
      } else {
        controlActive := true;
        log := log + [SwitchingToDeviceByHotkey];
        Emit(ControlSwitch(Hotkey, now));
      }
    }

    /** `return_control_to_pc`: afterwards the PC holds control; the device
        is told only if it held it, so a second call does nothing. */
    method ReturnControlToPc(now: int)
      requires Valid()
      modifies this`controlActive, this`events, this`log
      ensures Valid()
      ensures !controlActive
      ensures old(controlActive) ==>
                events == old(events) + [ControlSwitch(ReturnToPc, now)] && log == old(log) + [ControlReturnedToPc]
      ensures !old(controlActive) ==> unchanged(this)
    {
      if controlActive {
        controlActive := false;
        log := log + [ControlReturnedToPc];
        Emit(ControlSwitch(ReturnToPc, now));
      }
    }

    /** `input_event.emit`: the event is appended to the stream, which
        stays gated when the new control flag is the one the event leaves
        the device with. */
    method Emit(e: InputEvent)
      requires Gated(events)
      requires e.IsPointer() ==> Engaged(events)
      requires controlActive == if e.ControlSwitch? then e.edge != ReturnToPc else Engaged(events)
      modifies this`events
      ensures events == old(events) + [e]
      ensures controlActive == Engaged(events) && Gated(events)
    {
      EngagedSnoc(events, e);
      GatedSnoc(events, e);
      events := events + [e];
    }
  }
}
