/**
  VimYankHighlightPlugin: the key buffer and latch of the yank detector, the
  single pending-removal timer handle, and highlightYank, which reads the
  "yank" register, normalises its first segment and hands it to the mark
  plugin of the active editor view.

  The host is passed in as a value at each call instead of being reached
  through globals: the register's key buffer (absent when the vim object is
  missing), the active leaf, and the editor views that have the mark plugin
  attached. setYankText is recorded in a ghost log. The plugin's fields
  `scheduled` and `cancelled` stand for the host's table of timers this plugin
  created; timer ids are 1, 2, 3, ... in scheduling order.

  A TypeError in highlightYank is modelled as a `Threw` completion: the rest of
  the calling handler is then skipped.
*/
module YankHighlight {
  import opened Wrappers
  import opened Newlines
  import opened YankDetection

  /** Identity of one CodeMirror editor view. */
  type ViewId = nat
  type TimerId = nat

  /**
    What the active-view getters find: no MarkdownView at all, or a
    MarkdownView whose `editor?.cm` may still be missing.
  */
  datatype ActiveLeaf = NoMarkdownView | MarkdownView(editorView: Option<ViewId>)

  datatype Host = Host(
    yankRegister: Option<seq<string>>, // keyBuffer of register "yank"; None when the vim object is missing
    leaf: ActiveLeaf,
    markPluginViews: set<ViewId>)      // editor views on which markViewPlugin is attached

  /** The TypeErrors highlightYank can raise. */
  datatype Fault =
    | NoVimObject          // `codeMirrorVimObject` is undefined
    | EmptyYankRegister    // `keyBuffer[0]` is undefined, so `.replace` fails
    | NoActiveMarkdownView // `(this.activeView?.leaf.view).editor`: the chain ends at the parenthesis

  datatype Completion = Returned | Threw(fault: Fault)

  /** One `setYankText(text, view)` call. */
  datatype HighlightRequest = HighlightRequest(text: string, view: ViewId)

  /** A scheduled removal; its callback body is empty, it only captures the view. */
  datatype Timer = Timer(delayMs: nat, view: ViewId)

  /** The delay written into the setTimeout call. */
  const RemovalDelayMs: nat := 500

  /** Reading and normalising the first segment of the yank register. */
  function YankText(host: Host): Result<string, Fault> {
    match host.yankRegister
    case None => Failure(NoVimObject)
    case Some(keyBuffer) =>
      if keyBuffer == [] then Failure(EmptyYankRegister) else Success(StripNewlines(keyBuffer[0]))
  }

  /** The `activeEditorView` getter. */
  function ActiveEditorView(leaf: ActiveLeaf): (r: Result<Option<ViewId>, Fault>)
    ensures r.Failure? <==> leaf.NoMarkdownView?
    ensures r.Success? ==> r.value == leaf.editorView
  {
    match leaf
    case NoMarkdownView => Failure(NoActiveMarkdownView)
    case MarkdownView(v) => Success(v)
  }

  /**
    What one highlightYank call does: raise, return early (Success(None)), or
    make one setYankText call (Success(Some(request))).
  */
  function HighlightOutcome(host: Host): Result<Option<HighlightRequest>, Fault>
  {
    match YankText(host)
    case Failure(f) => Failure(f)
    case Success(text) =>
      match ActiveEditorView(host.leaf)
      case Failure(f) => Failure(f)
      case Success(None) => Success(None)
      case Success(Some(view)) =>
        if view in host.markPluginViews then Success(Some(HighlightRequest(text, view))) else Success(None)
  }

  /**
    highlightYank raises exactly when the register or the MarkdownView is
    missing, and calls setYankText exactly when the register has a segment and
    the active editor view has the mark plugin attached; the text is the
    stripped first segment.
  */
  lemma HighlightOutcomeCases(host: Host)
    ensures HighlightOutcome(host).Failure? <==>
      host.yankRegister.None? || host.yankRegister.value == [] || host.leaf.NoMarkdownView?
    ensures HighlightOutcome(host).Success? && HighlightOutcome(host).value.Some? <==>
      && host.yankRegister.Some? && host.yankRegister.value != []
      && host.leaf.MarkdownView? && host.leaf.editorView.Some?
      && host.leaf.editorView.value in host.markPluginViews
    ensures HighlightOutcome(host).Success? && HighlightOutcome(host).value.Some? ==>
      && HighlightOutcome(host).value.value.text == StripNewlines(host.yankRegister.value[0])
      && HighlightOutcome(host).value.value.view == host.leaf.editorView.value
      && NoEdgeLineFeeds(HighlightOutcome(host).value.value.text)
  {
  }

  function HandleSet(handle: Option<TimerId>): set<TimerId> {
    if handle.Some? then {handle.value} else {}
  }

  /** Ids among the first `count` timers that have not been cancelled. */
  ghost function Pending(count: nat, cancelled: set<TimerId>): set<TimerId> {
    set id | 1 <= id <= count && id !in cancelled
  }

  /** When every timer but the newest is cancelled, the newest is the only one pending. */
  lemma PendingOnlyNewest(count: nat, cancelled: set<TimerId>)
    requires count >= 1 && count !in cancelled
    requires forall id :: 1 <= id < count ==> id in cancelled
    ensures Pending(count, cancelled) == {count}
  {
    assert forall t :: t in Pending(count, cancelled) ==> t == count;
  }

  class VimYankHighlightPlugin {
    var vimCommand: seq<string>
    var vimCommandDone: bool
    var timeoutHandle: Option<TimerId>   // None while `timeoutHandle` is still undefined
    var scheduled: seq<Timer>            // timer id i + 1 is scheduled[i]
    var cancelled: set<TimerId>
    ghost var yankTexts: seq<HighlightRequest>

    /** The handle names the newest timer, and every older timer has been cancelled. */
    ghost predicate Valid()
      reads this
    {
      && (timeoutHandle.None? <==> scheduled == [])
      && (scheduled != [] ==> timeoutHandle == Some(|scheduled|))
      && (forall id :: 1 <= id < |scheduled| ==> id in cancelled)
      && (forall id :: id in cancelled ==> 1 <= id <= |scheduled|)
    }

    /** Timers scheduled and not cancelled (firing is not modelled). */
    ghost function PendingTimers(): set<TimerId>
      reads this
    {
      Pending(|scheduled|, cancelled)
    }

    function State(): Detector
      reads this
    {
      Detector(vimCommand, vimCommandDone)
    }

    /** At most one removal is ever pending, and it is the one the handle names. */
    lemma AtMostOnePending()
      requires Valid()
      ensures PendingTimers() <= HandleSet(timeoutHandle)
    {
    }

    constructor()
      ensures Valid()
      ensures State() == Initial
      ensures timeoutHandle == None && scheduled == [] && cancelled == {} && yankTexts == []
    {
      vimCommand := [];
      vimCommandDone := false;
      timeoutHandle := None;
      scheduled := [];
      cancelled := {};
      yankTexts := [];
    }

    twostate predicate TimersAndLogUnchanged()
      reads this
    {
      && timeoutHandle == old(timeoutHandle) && scheduled == old(scheduled)
      && cancelled == old(cancelled) && yankTexts == old(yankTexts)
    }

    /** The effect of one highlightYank call on the timers and the log, per HighlightOutcome. */
    twostate predicate HighlightEffect(host: Host, c: Completion)
      reads this
    {
      match HighlightOutcome(host)
      case Failure(f) => c == Threw(f) && TimersAndLogUnchanged()
      case Success(None) => c == Returned && TimersAndLogUnchanged()
      case Success(Some(request)) =>
        && c == Returned
        && yankTexts == old(yankTexts) + [request]
        && cancelled == old(cancelled) + HandleSet(old(timeoutHandle))
        && scheduled == old(scheduled) + [Timer(RemovalDelayMs, request.view)]
        && timeoutHandle == Some(|scheduled|)
        && PendingTimers() == {|scheduled|}
    }

    /** `clearTimeout(handle)`; clearing `undefined` does nothing. */
    method ClearTimeout(handle: Option<TimerId>)
      modifies this`cancelled
      ensures cancelled == old(cancelled) + HandleSet(handle)
    {
      if handle.Some? {
        cancelled := cancelled + {handle.value};
      }
    }

    /** `window.setTimeout(() => {}, delayMs)`: a fresh id for a new timer. */
    method SetTimeout(delayMs: nat, view: ViewId) returns (id: TimerId)
      modifies this`scheduled
      ensures scheduled == old(scheduled) + [Timer(delayMs, view)]
      ensures id == |scheduled|
    {
      scheduled := scheduled + [Timer(delayMs, view)];
      id := |scheduled|;
    }

    method HighlightYank(host: Host) returns (c: Completion)
      requires Valid()
      modifies this
      ensures Valid()
      ensures State() == old(State())
      ensures HighlightEffect(host, c)
    {
      if host.yankRegister.None? {
        assert HighlightOutcome(host) == Failure(NoVimObject);
        return Threw(NoVimObject);
      }
      var keyBuffer := host.yankRegister.value;
      if keyBuffer == [] {
        assert HighlightOutcome(host) == Failure(EmptyYankRegister);
        return Threw(EmptyYankRegister);
      }
      var currentYankBuffer := StripNewlines(keyBuffer[0]);
      assert YankText(host) == Success(currentYankBuffer);
      if host.leaf.NoMarkdownView? {
        assert HighlightOutcome(host) == Failure(NoActiveMarkdownView);
        return Threw(NoActiveMarkdownView);
      }
      if host.leaf.editorView.None? {
        assert HighlightOutcome(host) == Success(None);
        return Returned;
      }
      var view := host.leaf.editorView.value;
      if view !in host.markPluginViews {
        assert HighlightOutcome(host) == Success(None);
        return Returned;
      }
      var request := HighlightRequest(currentYankBuffer, view);
      assert HighlightOutcome(host) == Success(Some(request));
      yankTexts := yankTexts + [request];
      ClearTimeout(timeoutHandle);
      var id := SetTimeout(RemovalDelayMs, view);
      timeoutHandle := Some(id);
      PendingOnlyNewest(id, cancelled);
      c := Returned;
    }

    /** Sets the latch; the buffer, the timers and the log are not touched. */
    method OnVimCommandDone()
      requires Valid()
      modifies this`vimCommandDone
      ensures Valid()
      ensures State() == OnCommandDone(old(State()))
    {
      vimCommandDone := true;
    }

    /**
      Appends the key; if the latch was set, calls highlightYank when the
      buffer now contains "y", then clears the latch and the buffer, unless
      highlightYank raised.
    */
    method OnVimKeypress(key: string, host: Host) returns (c: Completion)
      requires Valid()
      modifies this
      ensures Valid()
      ensures !OnKeypress(old(State()), key).1 ==>
        c == Returned && State() == OnKeypress(old(State()), key).0 && TimersAndLogUnchanged()
      ensures OnKeypress(old(State()), key).1 ==> HighlightEffect(host, c)
      ensures OnKeypress(old(State()), key).1 && c == Returned ==> State() == OnKeypress(old(State()), key).0
      ensures c.Threw? ==> vimCommand == old(vimCommand) + [key] && vimCommandDone
    {
      vimCommand := vimCommand + [key];
      if !vimCommandDone {
        return Returned;
      }
      if YankKey in vimCommand {
        c := HighlightYank(host);
        if c.Threw? {
          return;
        }
      } else {
        c := Returned;
      }
      vimCommandDone := false;
      vimCommand := [];
    }
  }

  /**
    "yy" with "done" fired after the first key, on a linewise yank: one
    highlight of the line without its line feeds, then an empty buffer.
  */
  method ScenarioYankLine(line: string)
    requires NoEdgeLineFeeds(line)
  {
    var host := Host(Some([line + "\n", "older"]), MarkdownView(Some(7)), {7});
    var p := new VimYankHighlightPlugin();
    var c := p.OnVimKeypress("y", host);
    assert p.vimCommand == ["y"] && c == Returned;
    p.OnVimCommandDone();
    c := p.OnVimKeypress("y", host);
    assert "" + line + "\n" == line + "\n";
    StripNewlinesUnique("", line, "\n");
    assert p.yankTexts == [HighlightRequest(line, 7)];
    assert p.vimCommand == [] && !p.vimCommandDone;
    assert p.scheduled == [Timer(500, 7)] && p.timeoutHandle == Some(1);
  }

  /** "dw": no "y" in the buffer, so no highlight, and the buffer is still emptied. */
  method ScenarioDeleteWord() {
    var host := Host(Some(["hello"]), MarkdownView(Some(7)), {7});
    var p := new VimYankHighlightPlugin();
    var c := p.OnVimKeypress("d", host);
    p.OnVimCommandDone();
    assert p.vimCommand == ["d"] && p.vimCommandDone;
    assert "y" != "d" && "y" != "w";
    assert !IsYankCommand(["d", "w"]);
    c := p.OnVimKeypress("w", host);
    assert p.yankTexts == [] && p.scheduled == [];
    assert p.vimCommand == [] && !p.vimCommandDone;
  }

  /** Two yanks in a row: the first removal is cancelled, only the second is pending. */
  method ScenarioTwoYanks() {
    var host := Host(Some(["a"]), MarkdownView(Some(3)), {3});
    var p := new VimYankHighlightPlugin();
    p.OnVimCommandDone();
    var c := p.OnVimKeypress("y", host);
    p.OnVimCommandDone();
    c := p.OnVimKeypress("y", host);
    assert p.timeoutHandle == Some(2) && 1 in p.cancelled;
    assert p.PendingTimers() == {2};
  }

  /**
    With no MarkdownView active, highlightYank raises and the latch and buffer
    survive. The next key, "j", then finds the latch still set and the "y"
    still in the buffer, so it highlights although "j" is no yank.
  */
  method ScenarioNoMarkdownView() {
    var host := Host(Some(["a"]), NoMarkdownView, {});
    var p := new VimYankHighlightPlugin();
    p.OnVimCommandDone();
    var c := p.OnVimKeypress("y", host);
    assert c == Threw(NoActiveMarkdownView);
    assert p.vimCommand == ["y"] && p.vimCommandDone;
    assert p.yankTexts == [] && p.scheduled == [];
    var viewHost := Host(Some(["a"]), MarkdownView(Some(3)), {3});
    c := p.OnVimKeypress("j", viewHost);
    assert IsYankCommand(["y", "j"]);
    assert p.yankTexts == [HighlightRequest("a", 3)];
    assert p.vimCommand == [] && !p.vimCommandDone;
  }
}
