/** The editor's slash-command key handler: on Enter without Shift, a block
    whose text starts with `//` is taken as a natural-language command. */
module SlashCommand {
  import opened Text

  /** The key event the handler sees: `event.key` and `event.shiftKey`. */
  datatype KeyEvent = KeyEvent(key: string, shiftKey: bool)

  /** What the handler does with the event: leave it to the editor (returns
      false, nothing dispatched), or prevent the default newline and dispatch
      exactly one transaction whose `slashCommand` meta carries the command
      (returns true). */
  datatype KeyOutcome = PassThrough | Dispatched(command: string)

  const EnterKey := "Enter"
  const Trigger := "//"

  /** The whole text of the block holding the cursor is matched against
      `^\/\/([\s\S]*)`; the command is the captured rest, trimmed. The cursor
      position plays no part: the handler never looks at it. */
  function HandleKeyDown(event: KeyEvent, blockText: string): (out: KeyOutcome)
    ensures out.Dispatched? <==> event.key == EnterKey && !event.shiftKey && Trigger <= blockText
    ensures out.Dispatched? ==> Trimmed(out.command) && |out.command| <= |blockText| - 2
  {
    if event.key == EnterKey && !event.shiftKey && Trigger <= blockText then
      Dispatched(Trim(blockText[|Trigger|..]))
    else
      PassThrough
  }

  /** Typing `//`, optional white space, a command and optional white space,
      then Enter, dispatches exactly that command: the parse undoes the
      layout of the line. */
  lemma CommandOfTypedLine(lead: string, command: string, trail: string)
    requires AllSpace(lead) && AllSpace(trail) && Trimmed(command)
    ensures HandleKeyDown(KeyEvent(EnterKey, false), Trigger + lead + command + trail) == Dispatched(command)
  {
    var line := Trigger + lead + command + trail;
    assert line[|Trigger|..] == lead + command + trail;
    TrimOfPadded(lead, command, trail);
  }

  /** A line whose first two characters are not `//` is never a command, even
      when `//` appears later in it. */
  lemma LaterSlashesAreText(event: KeyEvent, head: string, rest: string)
    requires |head| == 2 && head != Trigger
    ensures HandleKeyDown(event, head + rest) == PassThrough
  {
    assert (head + rest)[..2] == head;
  }

  /** A bare `//` (or `//` followed by white space only) still dispatches, with
      an empty command. */
  lemma BareTriggerDispatchesEmpty(trail: string)
    requires AllSpace(trail)
    ensures HandleKeyDown(KeyEvent(EnterKey, false), Trigger + trail) == Dispatched([])
  {
    assert Trigger + trail == Trigger + [] + [] + trail;
    CommandOfTypedLine([], [], trail);
  }

  /** The command keeps the line breaks inside a block: `[\s\S]` matches them. */
  lemma CommandKeepsInnerNewlines(a: string, b: string)
    requires a != [] && b != [] && !IsSpace(a[0]) && !IsSpace(b[|b| - 1])
    ensures HandleKeyDown(KeyEvent(EnterKey, false), Trigger + a + "\n" + b) == Dispatched(a + "\n" + b)
  {
    var command := a + "\n" + b;
    assert command[0] == a[0] && command[|command| - 1] == b[|b| - 1];
    assert Trigger + a + "\n" + b == Trigger + [] + command + [];
    CommandOfTypedLine([], command, []);
  }
}
