/** GLFWUtil and GLFWWindow.  They share one module because each calls the
    other: window construction asks whether GLFW is ready, and termination
    destroys every window. */
module Glfw {
  import opened Failures
  import opened Sequences
  import JavaInt
  import GlfwMonitor

  /** Window dimensions the windowed constructor accepts.  Its comment says
      "< 4096"; the code admits 4096 itself, and the model follows the code. */
  predicate DimensionsAccepted(width: int, height: int) {
    2 <= width <= 4096 && 2 <= height <= 4096
  }

  /** What the native side reports when a window is created: the handle
      `glfwCreateWindow` returned (0 on failure) and the size
      `glfwGetWindowSize` then reports. */
  datatype NativeWindow = NativeWindow(handle: int, reportedWidth: int, reportedHeight: int)

  /** A monitor's current video mode, as `glfwGetVideoMode` reports it. */
  datatype VideoMode = VideoMode(width: int, height: int)

  /** The one-shot init/terminate state of GLFWUtil. */
  class Library {
    var initialized: bool
    var terminated: bool

    /** GLFW can only be terminated after it was initialized. */
    ghost predicate Valid()
      reads this
    {
      terminated ==> initialized
    }

    /** Ready for window creation. */
    predicate Ready()
      reads this
    {
      initialized && !terminated
    }

    constructor ()
      ensures Valid() && !initialized && !terminated
    {
      initialized, terminated := false, false;
    }

    /** `init`; `nativeInitSucceeds` is what `glfwInit` returns. */
    method Init(nativeInitSucceeds: bool) returns (r: Outcome)
      requires Valid()
      modifies this`initialized
      ensures Valid()
      ensures old(terminated) ==> r == Fail(AlreadyTerminated)
      ensures !old(terminated) && old(initialized) ==> r == Fail(AlreadyInitialized)
      ensures !old(terminated) && !old(initialized) && !nativeInitSucceeds ==> r == Fail(InitFailed)
      ensures r.Pass? <==> !old(terminated) && !old(initialized) && nativeInitSucceeds
      ensures initialized == (old(initialized) || r.Pass?)
    {
      if terminated {
        return Fail(AlreadyTerminated);
      }
      if initialized {
        return Fail(AlreadyInitialized);
      }
      if !nativeInitSucceeds {
        return Fail(InitFailed);
      }
      initialized := true;
      r := Pass;
    }

    /** `terminate`: destroys every listed window before marking GLFW
        terminated. */
    method Terminate(windows: Windows) returns (r: Outcome)
      requires Valid() && windows.Valid()
      modifies this`terminated, windows, windows.list
      ensures Valid() && windows.Valid()
      ensures !old(initialized) ==> r == Fail(NotInitialized)
      ensures old(initialized) && old(terminated) ==> r == Fail(AlreadyTerminated)
      ensures r.Pass? <==> old(initialized) && !old(terminated)
      ensures r.Fail? ==>
                terminated == old(terminated) && windows.list == old(windows.list)
                && windows.current == old(windows.current)
                && forall w :: w in old(windows.list) ==> !w.destroyed
      ensures r.Pass? ==>
                terminated && windows.list == []
                && windows.current == (if old(windows.current) in old(windows.list) then null
                                       else old(windows.current))
                && forall w :: w in old(windows.list) ==> w.destroyed
    {
      if !initialized {
        return Fail(NotInitialized);
      }
      if terminated {
        return Fail(AlreadyTerminated);
      }
      windows.DestroyAll();
      terminated := true;
      r := Pass;
    }
  }

  /** The static window list of GLFWWindow together with the window whose
      context is current. */
  class Windows {
    var list: seq<Window>
    var current: Window?

    /** Listed windows are live and listed once; the current window, if any,
        is live. */
    ghost predicate Valid()
      reads this, list, current
    {
      (forall i :: 0 <= i < |list| ==> !list[i].destroyed) &&
      (forall i, j :: 0 <= i < j < |list| ==> list[i] != list[j]) &&
      (current != null ==> !current.destroyed)
    }

    constructor ()
      ensures Valid() && list == [] && current == null
    {
      list, current := [], null;
    }

    /** The first constructor (a decorated window of the given size, centred
        on the primary monitor, whose video mode is `primaryMode`). */
    method CreateWindowed(lib: Library, title: Option<string>, width: int, height: int,
                          resizable: bool, vSync: bool, primaryMode: VideoMode, native: NativeWindow)
      returns (r: Result<Window>)
      requires Valid()
      modifies this
      ensures Valid()
      ensures !old(lib.Ready()) ==> r == Err(NotReady)
      ensures old(lib.Ready()) && !DimensionsAccepted(width, height) ==> r == Err(IllegalDimensions)
      ensures old(lib.Ready()) && DimensionsAccepted(width, height) && native.handle == 0 ==>
        r == Err(CreationFailed)
      ensures r.Ok? <==> old(lib.Ready()) && DimensionsAccepted(width, height) && native.handle != 0
      ensures r.Err? ==> list == old(list) && current == old(current)
      ensures r.Ok? ==>
                fresh(r.value) && !r.value.destroyed
                && list == old(list) + [r.value] && current == r.value
                && r.value.handle == native.handle
                && r.value.title == OrEmpty(title)
                && r.value.monitorHandle == 0
                && r.value.resizable == resizable
                && r.value.swapInterval == (if vSync then 1 else 0)
                && r.value.width == native.reportedWidth && r.value.height == native.reportedHeight
                && r.value.x == JavaInt.Half(primaryMode.width - native.reportedWidth)
                && r.value.y == JavaInt.Half(primaryMode.height - native.reportedHeight)
    {
      if !lib.initialized || lib.terminated {
        return Err(NotReady);
      }
      if !DimensionsAccepted(width, height) {
        return Err(IllegalDimensions);
      }
      var t := OrEmpty(title);
      if native.handle == 0 {
        return Err(CreationFailed);
      }
      var x := JavaInt.Half(primaryMode.width - native.reportedWidth);
      var y := JavaInt.Half(primaryMode.height - native.reportedHeight);
      var w := new Window(native.handle, t, 0, resizable, if vSync then 1 else 0,
                          native.reportedWidth, native.reportedHeight, x, y);
      current := w;
      list := list + [w];
      r := Ok(w);
    }

    /** The second constructor (full screen on `monitor`, or on the primary
        monitor when `monitor` is null or no longer valid).  `connected` is the
        native monitor list, read if the monitor cache has to be filled, and
        `modeOf` gives each monitor's video mode. */
    method CreateFullScreen(lib: Library, monitors: GlfwMonitor.Monitors, title: Option<string>,
                            vSync: bool, monitor: GlfwMonitor.Monitor?, connected: seq<int>,
                            modeOf: int -> VideoMode, native: NativeWindow)
      returns (r: Result<Window>)
      requires Valid() && monitors.Valid()
      modifies this, monitors
      ensures Valid() && monitors.Valid()
      ensures !old(lib.Ready()) ==> r == Err(NotReady) && monitors.cache == old(monitors.cache)
      ensures old(lib.Ready()) && monitor != null && old(monitor.valid) ==>
        monitors.cache == old(monitors.cache)
        && (native.handle == 0 ==> r == Err(CreationFailed))
        && (native.handle != 0 ==> r.Ok? && r.value.monitorHandle == monitor.handle)
      ensures old(lib.Ready()) && (monitor == null || !old(monitor.valid)) ==>
        monitors.cache != null
        && (old(monitors.cache) != null ==> monitors.cache == old(monitors.cache))
        && (monitors.cache.Length == 0 ==> r == Err(NullPointer))
        && (monitors.cache.Length > 0 && native.handle == 0 ==> r == Err(CreationFailed))
        && (monitors.cache.Length > 0 && native.handle != 0 ==>
              r.Ok? && r.value.monitorHandle == monitors.cache[0].handle)
      ensures r.Err? ==> list == old(list) && current == old(current)
      ensures r.Ok? ==>
                fresh(r.value) && !r.value.destroyed
                && list == old(list) + [r.value] && current == r.value
                && r.value.handle == native.handle
                && r.value.title == OrEmpty(title)
                && !r.value.resizable
                && r.value.swapInterval == (if vSync then 1 else 0)
                && r.value.width == native.reportedWidth && r.value.height == native.reportedHeight
                && r.value.x == JavaInt.Half(modeOf(r.value.monitorHandle).width - native.reportedWidth)
                && r.value.y == JavaInt.Half(modeOf(r.value.monitorHandle).height - native.reportedHeight)
    {
      if !lib.initialized || lib.terminated {
        return Err(NotReady);
      }
      var t := OrEmpty(title);
      var chosen := monitor;
      if chosen == null || !chosen.valid {
        chosen := monitors.GetPrimary(connected);
      }
      if chosen == null {
        return Err(NullPointer);
      }
      var mode := modeOf(chosen.handle);
      if native.handle == 0 {
        return Err(CreationFailed);
      }
      var x := JavaInt.Half(mode.width - native.reportedWidth);
      var y := JavaInt.Half(mode.height - native.reportedHeight);
      var w := new Window(native.handle, t, chosen.handle, false, if vSync then 1 else 0,
                          native.reportedWidth, native.reportedHeight, x, y);
      current := w;
      list := list + [w];
      r := Ok(w);
    }

    /** `destroyAll`: destroys window 0 of the list until the list is empty. */
    method DestroyAll()
      requires Valid()
      modifies this, list
      ensures Valid() && list == []
      ensures current == if old(current) in old(list) then null else old(current)
      ensures forall w :: w in old(list) ==> w.destroyed
    {
      ghost var listed := list;
      ghost var wasCurrent := current;
      ghost var done := 0;
      while |list| > 0
        invariant Valid()
        invariant 0 <= done <= |listed| && list == listed[done..]
        invariant forall i :: 0 <= i < done ==> listed[i].destroyed
        invariant current == if wasCurrent in listed[..done] then null else wasCurrent
        decreases |list|
      {
        var w := list[0];
        var outcome := w.Destroy(this);
        assert outcome.Pass?;
        done := done + 1;
      }
    }
  }

  function OrEmpty(title: Option<string>): string {
    if title.None? then "" else title.value
  }

  class Window {
    const handle: int
    /** The title handed to `glfwCreateWindow`. */
    const title: string
    /** The monitor of a full-screen window, 0 for a windowed one. */
    const monitorHandle: int
    const resizable: bool
    /** The argument of `glfwSwapInterval`. */
    const swapInterval: int
    /** The size `glfwGetWindowSize` reported after creation. */
    const width: int
    const height: int
    /** The position passed to `glfwSetWindowPos`. */
    const x: int
    const y: int
    var destroyed: bool

    constructor (handle: int, title: string, monitorHandle: int, resizable: bool, swapInterval: int,
                 width: int, height: int, x: int, y: int)
      ensures this.handle == handle && this.title == title && this.monitorHandle == monitorHandle
      ensures this.resizable == resizable && this.swapInterval == swapInterval
      ensures this.width == width && this.height == height && this.x == x && this.y == y
      ensures !destroyed
    {
      this.handle, this.title, this.monitorHandle := handle, title, monitorHandle;
      this.resizable, this.swapInterval := resizable, swapInterval;
      this.width, this.height, this.x, this.y := width, height, x, y;
      destroyed := false;
    }

    /** `getCursorX`; `reported` is the coordinate `glfwGetCursorPos` gives. */
    method GetCursorX(reported: real) returns (r: Result<int>)
      ensures r.Err? <==> destroyed
      ensures r.Err? ==> r.error == WindowDestroyed
      ensures r.Ok? ==> r.value == JavaInt.DoubleToInt(reported)
    {
      if destroyed {
        return Err(WindowDestroyed);
      }
      r := Ok(JavaInt.DoubleToInt(reported));
    }

    /** `getCursorY`, as `GetCursorX`. */
    method GetCursorY(reported: real) returns (r: Result<int>)
      ensures r.Err? <==> destroyed
      ensures r.Err? ==> r.error == WindowDestroyed
      ensures r.Ok? ==> r.value == JavaInt.DoubleToInt(reported)
    {
      if destroyed {
        return Err(WindowDestroyed);
      }
      r := Ok(JavaInt.DoubleToInt(reported));
    }

    /** `getWindowX`: the position the window was placed at. */
    method GetWindowX() returns (r: Result<int>)
      ensures r.Err? <==> destroyed
      ensures r.Err? ==> r.error == WindowDestroyed
      ensures r.Ok? ==> r.value == x
    {
      if destroyed {
        return Err(WindowDestroyed);
      }
      r := Ok(x);
    }

    method GetWindowY() returns (r: Result<int>)
      ensures r.Err? <==> destroyed
      ensures r.Err? ==> r.error == WindowDestroyed
      ensures r.Ok? ==> r.value == y
    {
      if destroyed {
        return Err(WindowDestroyed);
      }
      r := Ok(y);
    }

    method GetWindowWidth() returns (r: Result<int>)
      ensures r.Err? <==> destroyed
      ensures r.Err? ==> r.error == WindowDestroyed
      ensures r.Ok? ==> r.value == width
    {
      if destroyed {
        return Err(WindowDestroyed);
      }
      r := Ok(width);
    }

    method GetWindowHeight() returns (r: Result<int>)
      ensures r.Err? <==> destroyed
      ensures r.Err? ==> r.error == WindowDestroyed
      ensures r.Ok? ==> r.value == height
    {
      if destroyed {
        return Err(WindowDestroyed);
      }
      r := Ok(height);
    }

    /** `getFrameWidth`; `reported` is what `glfwGetFramebufferSize` gives. */
    method GetFrameWidth(reported: int) returns (r: Result<int>)
      ensures r.Err? <==> destroyed
      ensures r.Err? ==> r.error == WindowDestroyed
      ensures r.Ok? ==> r.value == reported
    {
      if destroyed {
        return Err(WindowDestroyed);
      }
      r := Ok(reported);
    }

    method GetFrameHeight(reported: int) returns (r: Result<int>)
      ensures r.Err? <==> destroyed
      ensures r.Err? ==> r.error == WindowDestroyed
      ensures r.Ok? ==> r.value == reported
    {
      if destroyed {
        return Err(WindowDestroyed);
      }
      r := Ok(reported);
    }

    /** `isCloseRequested`; `reported` is what `glfwWindowShouldClose` gives. */
    method IsCloseRequested(reported: bool) returns (r: Result<bool>)
      ensures r.Err? <==> destroyed
      ensures r.Err? ==> r.error == WindowDestroyed
      ensures r.Ok? ==> r.value == reported
    {
      if destroyed {
        return Err(WindowDestroyed);
      }
      r := Ok(reported);
    }

    /** `update`: swaps buffers and polls events, which the model does not
        observe; only the liveness check remains. */
    method Update() returns (r: Outcome)
      ensures r.Fail? <==> destroyed
      ensures r.Fail? ==> r.error == WindowDestroyed
    {
      if destroyed {
        return Fail(WindowDestroyed);
      }
      r := Pass;
    }

    /** `makeContextCurrent` */
    method MakeContextCurrent(windows: Windows) returns (r: Outcome)
      requires windows.Valid()
      modifies windows`current
      ensures windows.Valid()
      ensures r.Fail? <==> destroyed
      ensures r.Fail? ==> r.error == WindowDestroyed && windows.current == old(windows.current)
      ensures r.Pass? ==> windows.current == this
    {
      if destroyed {
        return Fail(WindowDestroyed);
      }
      windows.current := this;
      r := Pass;
    }

    /** `destroy`: marks the window destroyed and removes it from the list.
        Destroying the window whose context is current leaves no context
        current, as `glfwDestroyWindow` does. */
    method Destroy(windows: Windows) returns (r: Outcome)
      requires windows.Valid()
      modifies this`destroyed, windows
      ensures windows.Valid()
      ensures r.Fail? <==> old(destroyed)
      ensures r.Fail? ==>
                r.error == WindowDestroyed
                && windows.list == old(windows.list) && windows.current == old(windows.current)
      ensures r.Pass? ==>
                destroyed && this !in windows.list
                && windows.list == RemoveFirst(old(windows.list), this)
                && windows.current == (if old(windows.current) == this then null else old(windows.current))
    {
      if destroyed {
        return Fail(WindowDestroyed);
      }
      var before := windows.list;
      var rest := RemoveFirst(before, this);
      RemoveFirstDistinct(before, this);
      forall i | 0 <= i < |rest| ensures rest[i] in before && rest[i] != this {
        RemoveFirstSubset(before, this, rest[i]);
      }
      destroyed := true;
      windows.list := rest;
      assert forall i :: 0 <= i < |rest| ==> !rest[i].destroyed;
      if windows.current == this {
        windows.current := null;
      }
      r := Pass;
    }
  }

  /** Scenario: an 800x600 window reports its width until it is destroyed;
      afterwards every query fails. */
  method WindowScenario(lib: Library, windows: Windows, primaryMode: VideoMode, handle: int)
    returns (before: Result<int>, after: Result<int>, again: Outcome)
    requires lib.Valid() && lib.Ready() && windows.Valid() && handle != 0
    modifies windows
    ensures before == Ok(800) && after == Err(WindowDestroyed) && again == Fail(WindowDestroyed)
  {
    var created := windows.CreateWindowed(lib, None, 800, 600, false, true, primaryMode,
                                          NativeWindow(handle, 800, 600));
    var w := created.value;
    before := w.GetWindowWidth();
    var destroyed := w.Destroy(windows);
    after := w.GetWindowWidth();
    again := w.Destroy(windows);
  }
}
