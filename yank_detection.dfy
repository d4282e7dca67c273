/**
  The two-variable state machine of VimYankHighlightPlugin: the key buffer
  `vimCommand` and the latch `vimCommandDone`. The emulation layer fires
  "command done" before the last keystroke of the command, so the decision is
  taken on the keystroke that follows the latch, with that key already in the
  buffer. This module is the value-level specification of the two handlers;
  the class in module YankHighlight is proved against it.
*/
module YankDetection {

  /** The literal yank key the decision looks for. */
  const YankKey: string := "y"

  datatype Detector = Detector(vimCommand: seq<string>, vimCommandDone: bool)

  /** Field initialisers: an empty buffer and a cleared latch. */
  const Initial: Detector := Detector([], false)

  /** The loose heuristic: any occurrence of "y", at any position, is a yank. */
  predicate IsYankCommand(command: seq<string>) {
    YankKey in command
  }

  /** onVimCommandDone: set the latch; the buffer is not touched. */
  function OnCommandDone(d: Detector): (r: Detector)
    ensures r.vimCommandDone && r.vimCommand == d.vimCommand
  {
    d.(vimCommandDone := true)
  }

  /**
    onVimKeypress on the detector alone: the new state, and whether
    highlightYank is called.
  */
  function OnKeypress(d: Detector, key: string): (r: (Detector, bool))
    ensures !r.0.vimCommandDone
    ensures r.1 ==> d.vimCommandDone && IsYankCommand(d.vimCommand + [key])
    ensures r.0.vimCommand == if d.vimCommandDone then [] else d.vimCommand + [key]
  {
    var command := d.vimCommand + [key];
    if !d.vimCommandDone then (Detector(command, false), false)
    else (Initial, IsYankCommand(command))
  }

  lemma KeypressWhileAccumulating(d: Detector, key: string)
    requires !d.vimCommandDone
    ensures OnKeypress(d, key) == (Detector(d.vimCommand + [key], false), false)
  {
  }

  /**
    A keypress that finds the latch set decides on the buffer including that
    key: it highlights if and only if "y" occurs at some position, and in both
    cases leaves an empty buffer and a cleared latch.
  */
  lemma KeypressAfterDone(d: Detector, key: string)
    requires d.vimCommandDone
    ensures OnKeypress(d, key).0 == Initial
    ensures OnKeypress(d, key).1 <==>
      exists i :: 0 <= i < |d.vimCommand| + 1 && (d.vimCommand + [key])[i] == YankKey
  {
    var command := d.vimCommand + [key];
    if OnKeypress(d, key).1 {
      var i :| 0 <= i < |command| && command[i] == YankKey;
    }
  }

  datatype Event = Keypress(key: string) | CommandDone

  function Step(d: Detector, e: Event): (Detector, bool) {
    match e
    case CommandDone => (OnCommandDone(d), false)
    case Keypress(k) => OnKeypress(d, k)
  }

  /** Feeds events in order; returns the final state and how many highlights were requested. */
  function Run(d: Detector, events: seq<Event>): (Detector, nat)
    decreases |events|
  {
    if events == [] then (d, 0)
    else
      var (d1, h) := Step(d, events[0]);
      var (d2, n) := Run(d1, events[1..]);
      (d2, n + if h then 1 else 0)
  }

  function Keypresses(keys: seq<string>): (r: seq<Event>)
    ensures |r| == |keys|
    ensures forall i :: 0 <= i < |keys| ==> r[i] == Keypress(keys[i])
  {
    if keys == [] then [] else [Keypress(keys[0])] + Keypresses(keys[1..])
  }

  /**
    The events of one command as the emulation layer delivers them: every key
    but the last, then "command done", then the last key.
  */
  function CommandEvents(command: seq<string>): seq<Event>
    requires command != []
  {
    Keypresses(command[..|command| - 1]) + [CommandDone, Keypress(command[|command| - 1])]
  }

  lemma {:induction false} RunAppend(d: Detector, a: seq<Event>, b: seq<Event>)
    ensures Run(d, a + b) ==
      (Run(Run(d, a).0, b).0, Run(d, a).1 + Run(Run(d, a).0, b).1)
    decreases |a|
  {
    if a == [] {
      assert a + b == b;
    } else {
      assert (a + b)[0] == a[0];
      assert (a + b)[1..] == a[1..] + b;
      RunAppend(Step(d, a[0]).0, a[1..], b);
    }
  }

  /** While the latch is clear, keypresses only accumulate and request nothing. */
  lemma {:induction false} RunAccumulates(d: Detector, keys: seq<string>)
    requires !d.vimCommandDone
    ensures Run(d, Keypresses(keys)) == (Detector(d.vimCommand + keys, false), 0)
    decreases |keys|
  {
    if keys == [] {
      assert d.vimCommand + keys == d.vimCommand;
    } else {
      var ev := Keypresses(keys);
      assert ev[0] == Keypress(keys[0]);
      assert ev[1..] == Keypresses(keys[1..]);
      var d1 := Detector(d.vimCommand + [keys[0]], false);
      assert d1.vimCommand + keys[1..] == d.vimCommand + keys;
      assert Step(d, ev[0]) == (d1, false);
      assert Run(d, ev) == (Run(d1, ev[1..]).0, Run(d1, ev[1..]).1);
      RunAccumulates(d1, keys[1..]);
    }
  }

  /**
    One whole command cycle from the initial state: exactly one highlight if
    the command contains "y", none otherwise, and the machine is back in its
    initial state either way.
  */
  lemma CommandCycle(command: seq<string>)
    requires command != []
    ensures Run(Initial, CommandEvents(command)) ==
      (Initial, if IsYankCommand(command) then 1 else 0)
  {
    var n := |command| - 1;
    var init := command[..n];
    RunAccumulates(Initial, init);
    var tail := [CommandDone, Keypress(command[n])];
    RunAppend(Initial, Keypresses(init), tail);
    var d := Detector(init, false);
    assert init + [command[n]] == command;
    var done := OnCommandDone(d);
    assert Step(d, tail[0]) == (done, false);
    assert tail[1..] == [Keypress(command[n])];
    assert Run(done, tail[1..]) == (Initial, if IsYankCommand(command) then 1 else 0) by {
      assert [Keypress(command[n])][1..] == [];
    }
  }

  function SessionEvents(commands: seq<seq<string>>): seq<Event>
    requires forall i :: 0 <= i < |commands| ==> commands[i] != []
  {
    if commands == [] then [] else CommandEvents(commands[0]) + SessionEvents(commands[1..])
  }

  /** How many of the commands contain "y". */
  function YankCount(commands: seq<seq<string>>): nat {
    if commands == [] then 0
    else (if IsYankCommand(commands[0]) then 1 else 0) + YankCount(commands[1..])
  }

  /**
    Over any session of well-ordered commands, highlightYank is requested
    exactly once per command that contains "y" and never for the others.
  */
  lemma {:induction false} SessionHighlights(commands: seq<seq<string>>)
    requires forall i :: 0 <= i < |commands| ==> commands[i] != []
    ensures Run(Initial, SessionEvents(commands)) == (Initial, YankCount(commands))
    decreases |commands|
  {
    if commands != [] {
      CommandCycle(commands[0]);
      SessionHighlights(commands[1..]);
      RunAppend(Initial, CommandEvents(commands[0]), SessionEvents(commands[1..]));
    }
  }

  /** A repeated "command done" before the next key has no further effect. */
  lemma DoneIdempotent(d: Detector, rest: seq<Event>)
    ensures Run(d, [CommandDone, CommandDone] + rest) == Run(d, [CommandDone] + rest)
  {
    assert ([CommandDone, CommandDone] + rest)[1..] == [CommandDone] + rest;
    assert ([CommandDone] + rest)[1..] == rest;
    assert ([CommandDone] + rest)[0] == CommandDone;
  }
}
