/** The master document editor at the level of its plain text: AI commands
    (typed as a `//` line or chosen from the selection's bubble menu) put a
    placeholder where their target was, and the reply, or an error, later
    takes the placeholder's place. Every change feeds the auto-save. */
module Editor {
  import opened Common
  import opened Text
  import opened SlashCommand
  import opened Autosave

  /** The placeholder inserted while a command is in flight. */
  const Sentinel: string := "\U{2728} Thinking..."
  /** The text the error path looks for: the placeholder without its first
      two characters. */
  const ErrorSentinel: string := "Thinking..."
  const SparklePrefix: string := "\U{2728} "

  lemma SentinelParts()
    ensures Sentinel == SparklePrefix + ErrorSentinel
  {
  }

  /** A span of the document, as character offsets. */
  datatype Range = Range(from: nat, to: nat)

  predicate InDoc(r: Range, doc: string) {
    r.from <= r.to <= |doc|
  }

  /** What a command sends to the server: the command, the whole document
      as it was before the placeholder went in, and the selected text. */
  datatype Request = Request(command: string, fullDocumentContent: string, selectedText: string)

  // ---------------------------------------------------------------------------
  // The bubble menu

  const InstructionInfix: string := " the following text: \""

  /** `handleAction`: an empty selection gives no command; otherwise the
      action verb, a fixed phrase and the selection in double quotes. */
  function BubbleInstruction(action: string, selected: string): (r: Option<string>)
    ensures r.None? <==> selected == []
    ensures r.Some? ==> |r.value| == |action| + |InstructionInfix| + |selected| + 1
    ensures r.Some? ==> r.value[..|action|] == action && r.value[|r.value| - 1] == '"'
  {
    if selected == [] then None
    else Some(action + InstructionInfix + selected + "\"")
  }

  /** Reading the selection back out of an instruction built for `action`. */
  function InstructionSelection(action: string, instruction: string): Option<string> {
    var n := |action| + |InstructionInfix|;
    if |instruction| > n && instruction[..n] == action + InstructionInfix && instruction[|instruction| - 1] == '"'
    then Some(instruction[n .. |instruction| - 1])
    else None
  }

  /** The selection can be read back out of the instruction, so different
      selections never give the same instruction. */
  lemma InstructionRoundTrip(action: string, selected: string)
    requires selected != []
    ensures BubbleInstruction(action, selected).Some?
    ensures InstructionSelection(action, BubbleInstruction(action, selected).value) == Some(selected)
  {
    var i := action + InstructionInfix + selected + "\"";
    var n := |action| + |InstructionInfix|;
    assert i[..n] == action + InstructionInfix;
    assert i[n .. |i| - 1] == selected;
  }

  lemma InstructionInjective(action: string, s1: string, s2: string)
    requires s1 != [] && s2 != [] && s1 != s2
    ensures BubbleInstruction(action, s1) != BubbleInstruction(action, s2)
  {
    InstructionRoundTrip(action, s1);
    InstructionRoundTrip(action, s2);
  }

  // ---------------------------------------------------------------------------
  // The span a command replaces

  /** `commandRange` as written: an explicit range is used as it is; without
      one, the span reaches back `|command| + 2` characters from the
      selection's start (for the `//` and the command), clipped at the start
      of the document, and ends at the selection's end. */
  function CommandRange(range: Option<Range>, sel: Range, command: string): (r: Range)
    requires sel.from <= sel.to
    requires range.Some? ==> range.value.from <= range.value.to
    ensures r.from <= r.to
    ensures range.Some? ==> r == range.value
    ensures range.None? ==> r.to == sel.to && r.from <= sel.from
    ensures range.None? && sel.from >= |command| + 2 ==> sel.from - r.from == |command| + 2
    ensures range.None? && sel.from < |command| + 2 ==> r.from == 0
  {
    match range
    case Some(r) => r
    case None => Range(Max(0, sel.from - |command| - 2), sel.to)
  }

  /** As written, a `//` line with white space before the command, entered
      with the cursor at its end, keeps its first characters: the command was
      trimmed, so `|command| + 2` falls short of the line by the white space.
      Typing `// x` leaves `/` in front of the placeholder. */
  lemma LeadingSpaceLeavesResidue(lead: string, command: string)
    requires AllSpace(lead) && lead != [] && Trimmed(command)
    ensures var line := Trigger + lead + command;
            && HandleKeyDown(KeyEvent(EnterKey, false), line) == Dispatched(command)
            && var r := CommandRange(None, Range(|line|, |line|), command);
               Splice(line, r.from, r.to, Sentinel) == line[..|lead|] + Sentinel
  {
    var line := Trigger + lead + command;
    assert Trigger + lead + command + [] == line;
    CommandOfTypedLine(lead, command, []);
  }

  /** The span a command replaces, as intended: an explicit range as it is;
      for a `//` command, the whole block that holds it. */
  function CommandTarget(range: Option<Range>, block: Range): (r: Range)
    ensures range.Some? ==> r == range.value
    ensures range.None? ==> r == block
  {
    if range.Some? then range.value else block
  }

  /** With the block's span as the target, the typed command line, however
      it is laid out, is replaced by the placeholder and nothing else
      changes. */
  lemma TypedLineBecomesPlaceholder(before: string, lead: string, command: string, trail: string, after: string)
    requires AllSpace(lead) && AllSpace(trail) && Trimmed(command)
    ensures var line := Trigger + lead + command + trail;
            var doc := before + line + after;
            var r := CommandTarget(None, Range(|before|, |before| + |line|));
            && HandleKeyDown(KeyEvent(EnterKey, false), doc[r.from..r.to]) == Dispatched(command)
            && Splice(doc, r.from, r.to, Sentinel) == before + Sentinel + after
  {
    var line := Trigger + lead + command + trail;
    var doc := before + line + after;
    assert doc[|before| .. |before| + |line|] == line;
    CommandOfTypedLine(lead, command, trail);
    var d := Splice(doc, |before|, |before| + |line|, Sentinel);
    assert d[..|before|] == before;
    assert d[|before| + |Sentinel|..] == after;
    assert d == d[..|before|] + d[|before|..|before| + |Sentinel|] + d[|before| + |Sentinel|..];
  }

  // ---------------------------------------------------------------------------
  // Resolving the placeholder

  const ParagraphBreak: string := "</p><p>"

  /** The reply as paragraphs: each line break closes one paragraph and opens
      the next. */
  function Paragraphs(reply: string): string {
    "<p>" + ReplaceChar(reply, '\n', ParagraphBreak) + "</p>"
  }

  /** Each line wrapped in its own paragraph, one after the other. */
  function Wrapped(lines: seq<string>): string
    decreases |lines|
  {
    if lines == [] then [] else "<p>" + lines[0] + "</p>" + Wrapped(lines[1..])
  }

  lemma {:induction false} JoinedWrapped(lines: seq<string>)
    requires |lines| >= 1
    ensures "<p>" + Join(lines, ParagraphBreak) + "</p>" == Wrapped(lines)
    decreases |lines|
  {
    if |lines| == 1 {
      assert Wrapped(lines[1..]) == [];
    } else {
      JoinedWrapped(lines[1..]);
      assert "<p>" + (lines[0] + ParagraphBreak + Join(lines[1..], ParagraphBreak)) + "</p>" ==
             ("<p>" + lines[0] + "</p>") + ("<p>" + Join(lines[1..], ParagraphBreak) + "</p>");
    }
  }

  /** Every line of the reply becomes one paragraph. */
  lemma ParagraphPerLine(reply: string)
    ensures Paragraphs(reply) == Wrapped(Split(reply, '\n'))
  {
    ReplaceCharIsJoinOfSplit(reply, '\n', ParagraphBreak);
    JoinedWrapped(Split(reply, '\n'));
  }

  /** A reply made of the given lines gives exactly those paragraphs, in order. */
  lemma ParagraphsOfLines(lines: seq<string>)
    requires |lines| >= 1
    requires forall k :: 0 <= k < |lines| ==> '\n' !in lines[k]
    ensures Paragraphs(Join(lines, "\n")) == Wrapped(lines)
  {
    SplitJoin(lines, '\n');
    ParagraphPerLine(Join(lines, "\n"));
  }

  /** The markup put in place of the placeholder when the command fails. */
  function ErrorHtml(message: string): string {
    "<p><strong>Error:</strong> " + message + "</p>"
  }

  /** No occurrence of `pat` can start inside `a` and run into the `pat`
      that follows it when `pat`'s first character does not recur in it. */
  lemma NoStraddle(a: string, pat: string, b: string)
    requires !Occurs(a, pat) && |pat| > 0
    requires forall k :: 0 < k < |pat| ==> pat[k] != pat[0]
    ensures forall j: nat :: j < |a| ==> !OccursAt(a + pat + b, pat, j)
  {
    var s := a + pat + b;
    forall j: nat | j < |a| ensures !OccursAt(s, pat, j) {
      if j + |pat| <= |a| {
        assert !OccursAt(a, pat, j);
        assert s[j..j + |pat|] == a[j..j + |pat|];
      } else if j + |pat| <= |s| {
        var k := |a| - j;
        assert s[j..j + |pat|][k] == pat[0] != pat[k];
      }
    }
  }

  /** Appending characters that `pat` does not use cannot create an
      occurrence of it. */
  lemma NoOccurrenceAppend(a: string, c: string, pat: string)
    requires !Occurs(a, pat) && |pat| > 0
    requires forall x :: x in c ==> x !in pat
    ensures !Occurs(a + c, pat)
  {
    var s := a + c;
    forall j: nat | j <= |s| ensures !OccursAt(s, pat, j) {
      if j + |pat| <= |a| {
        assert !OccursAt(a, pat, j);
        assert s[j..j + |pat|] == a[j..j + |pat|];
      } else if j + |pat| <= |s| {
        var m := j + |pat| - 1;
        assert s[j..j + |pat|][|pat| - 1] == c[m - |a|];
        assert c[m - |a|] in c;
        assert pat[|pat| - 1] in pat;
      }
    }
  }

  /** On success the first placeholder, and only it, becomes the reply's
      paragraphs: text before it and after it (other placeholders included)
      is kept. */
  lemma ReplyReplacesFirstPlaceholder(a: string, b: string, reply: string)
    requires !Occurs(a, Sentinel)
    ensures ReplaceFirst(a + Sentinel + b, Sentinel, Paragraphs(reply)) == a + Paragraphs(reply) + b
  {
    NoStraddle(a, Sentinel, b);
    ReplaceFirstAt(a, Sentinel, b, Paragraphs(reply));
  }

  /** Placing the placeholder over a target and then resolving it with the
      reply is replacing the target with the reply. */
  lemma CommandRoundTrip(doc: string, target: Range, reply: string)
    requires InDoc(target, doc) && !Occurs(doc[..target.from], Sentinel)
    ensures ReplaceFirst(Splice(doc, target.from, target.to, Sentinel), Sentinel, Paragraphs(reply)) ==
            Splice(doc, target.from, target.to, Paragraphs(reply))
  {
    var a, b := doc[..target.from], doc[target.to..];
    var d := Splice(doc, target.from, target.to, Sentinel);
    assert d == a + Sentinel + b by {
      assert d == d[..target.from] + d[target.from .. target.from + |Sentinel|] + d[target.from + |Sentinel|..];
    }
    ReplyReplacesFirstPlaceholder(a, b, reply);
    var e := Splice(doc, target.from, target.to, Paragraphs(reply));
    assert e == e[..target.from] + e[target.from .. target.from + |Paragraphs(reply)|] + e[target.from + |Paragraphs(reply)|..];
  }

  /** On failure the error path looks for "Thinking..." only, so the
      placeholder's leading sparkle and space stay in front of the error. */
  lemma ErrorKeepsSparkle(a: string, b: string, message: string)
    requires !Occurs(a, ErrorSentinel)
    ensures ReplaceFirst(a + Sentinel + b, ErrorSentinel, ErrorHtml(message)) == a + SparklePrefix + ErrorHtml(message) + b
  {
    NoOccurrenceAppend(a, SparklePrefix, ErrorSentinel);
    var a' := a + SparklePrefix;
    NoStraddle(a', ErrorSentinel, b);
    assert a + Sentinel + b == a' + ErrorSentinel + b;
    ReplaceFirstAt(a', ErrorSentinel, b, ErrorHtml(message));
  }

  /** With no placeholder left (another reply took it, or the user deleted
      it), the reply changes nothing. */
  lemma MissingPlaceholderChangesNothing(doc: string, reply: string)
    requires !Occurs(doc, Sentinel)
    ensures ReplaceFirst(doc, Sentinel, Paragraphs(reply)) == doc
  {
    ReplaceFirstAbsent(doc, Sentinel, Paragraphs(reply));
  }

  // ---------------------------------------------------------------------------
  // The editor

  /** The editor's document (its text), the selection and the auto-save
      state. */
  class DocumentEditor {
    var doc: string
    var selection: Range
    var save: SaveState

    ghost predicate Valid()
      reads this
    {
      InDoc(selection, doc) && Coherent(save)
    }

    constructor ()
      ensures Valid()
      ensures doc == [] && selection == Range(0, 0) && save == Initial
    {
      doc := [];
      selection := Range(0, 0);
      save := Initial;
    }

    /** The user replaces a span with new text; the cursor ends after it, the
        document is marked unsaved and a save is scheduled. */
    method UserEdit(r: Range, text: string)
      requires Valid() && InDoc(r, doc)
      modifies this
      ensures Valid()
      ensures doc == Splice(old(doc), r.from, r.to, text)
      ensures selection == Range(r.from + |text|, r.from + |text|)
      ensures save == Edit(old(save))
    {
      doc := Splice(doc, r.from, r.to, text);
      selection := Range(r.from + |text|, r.from + |text|);
      save := Edit(save);
    }

    /** The user moves the selection; the document does not change. */
    method Select(r: Range)
      requires Valid() && InDoc(r, doc)
      modifies this`selection
      ensures Valid() && selection == r
    {
      selection := r;
    }

    /** Time passes; a due auto-save is sent and its outcome shown. */
    method Wait(dt: nat, ok: bool)
      requires Valid()
      modifies this`save
      ensures Valid()
      ensures save == Tick(old(save), dt, ok)
    {
      save := Tick(save, dt, ok);
    }

    /** `handleNaturalLanguageCommand`: an empty command or no session does
        nothing. Otherwise the request is built from the document as it is
        and the span `commandRange` gives (an explicit range, or the
        command's length plus 2 back from the selection) is replaced by the
        placeholder. The change carries `preventUpdate`, so the document is
        not marked unsaved, but the save effect still runs. */
    method RunCommand(command: string, range: Option<Range>, hasSession: bool)
      returns (request: Option<Request>)
      requires Valid()
      requires range.Some? ==> InDoc(range.value, doc)
      modifies this
      ensures Valid()
      ensures (command == [] || !hasSession) ==>
                request.None? && doc == old(doc) && selection == old(selection) && save == old(save)
      ensures command != [] && hasSession ==>
                var span := if range.Some? then range.value else old(selection);
                var target := CommandRange(range, old(selection), command);
                && request == Some(Request(command, old(doc), old(doc)[span.from..span.to]))
                && doc == Splice(old(doc), target.from, target.to, Sentinel)
                && selection == Range(target.from + |Sentinel|, target.from + |Sentinel|)
                && save == SilentEditAsWritten(old(save))
    {
      if command == [] || !hasSession {
        return None;
      }
      var span := if range.Some? then range.value else selection;
      request := Some(Request(command, doc, doc[span.from..span.to]));
      var target := CommandRange(range, selection, command);
      doc := Splice(doc, target.from, target.to, Sentinel);
      selection := Range(target.from + |Sentinel|, target.from + |Sentinel|);
      save := SilentEditAsWritten(save);
    }

    /** A bubble-menu action on the selection: nothing for an empty
        selection, else the instruction is run with the selection as its
        explicit range. */
    method BubbleAction(action: string, hasSession: bool) returns (request: Option<Request>)
      requires Valid()
      modifies this
      ensures Valid()
      ensures old(selection.from) == old(selection.to) || !hasSession ==>
                request.None? && doc == old(doc) && selection == old(selection) && save == old(save)
      ensures old(selection.from) < old(selection.to) && hasSession ==>
                var selected := old(doc)[old(selection.from)..old(selection.to)];
                && request == Some(Request(action + InstructionInfix + selected + "\"", old(doc), selected))
                && doc == Splice(old(doc), old(selection.from), old(selection.to), Sentinel)
                && selection == Range(old(selection.from) + |Sentinel|, old(selection.from) + |Sentinel|)
                && save == SilentEditAsWritten(old(save))
    {
      var selected := doc[selection.from..selection.to];
      match BubbleInstruction(action, selected)
      case None =>
        request := None;
      case Some(instruction) =>
        request := RunCommand(instruction, Some(selection), hasSession);
    }

    /** A key press reaching the slash-command handler, with `block` the span
        of the block holding the cursor. A dispatched command is run without
        a range, so its span is counted back from the selection rather than
        taken from the block. */
    method KeyDown(event: KeyEvent, block: Range, hasSession: bool)
      returns (handled: bool, request: Option<Request>)
      requires Valid() && InDoc(block, doc) && block.from <= selection.from <= block.to
      modifies this
      ensures Valid()
      ensures handled <==> HandleKeyDown(event, old(doc)[block.from..block.to]).Dispatched?
      ensures !handled || !hasSession || HandleKeyDown(event, old(doc)[block.from..block.to]).command == [] ==>
                request.None? && doc == old(doc) && selection == old(selection) && save == old(save)
      ensures handled && hasSession && HandleKeyDown(event, old(doc)[block.from..block.to]).command != [] ==>
                var command := HandleKeyDown(event, old(doc)[block.from..block.to]).command;
                var target := CommandRange(None, old(selection), command);
                && request == Some(Request(command, old(doc), old(doc)[old(selection).from..old(selection).to]))
                && doc == Splice(old(doc), target.from, target.to, Sentinel)
                && selection == Range(target.from + |Sentinel|, target.from + |Sentinel|)
                && save == SilentEditAsWritten(old(save))
    {
      var outcome := HandleKeyDown(event, doc[block.from..block.to]);
      handled := outcome.Dispatched?;
      if handled {
        request := RunCommand(outcome.command, None, hasSession);
      } else {
        request := None;
      }
    }

    /** The reply arrived: the first placeholder, if any, becomes the reply's
        paragraphs, which is an ordinary change and schedules a save; the
        cursor ends after the paragraphs. With no placeholder nothing
        happens. */
    method ResolveSuccess(reply: string)
      requires Valid()
      modifies this
      ensures Valid()
      ensures doc == ReplaceFirst(old(doc), Sentinel, Paragraphs(reply))
      ensures !Occurs(old(doc), Sentinel) ==> selection == old(selection) && save == old(save)
      ensures Occurs(old(doc), Sentinel) ==>
                var i := IndexOf(old(doc), Sentinel).value;
                && selection == Range(i + |Paragraphs(reply)|, i + |Paragraphs(reply)|)
                && save == Edit(old(save))
    {
      var found := IndexOf(doc, Sentinel);
      if found.Some? {
        var i := found.value;
        var html := Paragraphs(reply);
        doc := Splice(doc, i, i + |Sentinel|, html);
        selection := Range(i + |html|, i + |html|);
        save := Edit(save);
      }
    }

    /** The command failed: the first "Thinking..." becomes the error markup,
        with the cursor after it. */
    method ResolveFailure(message: string)
      requires Valid()
      modifies this
      ensures Valid()
      ensures doc == ReplaceFirst(old(doc), ErrorSentinel, ErrorHtml(message))
      ensures !Occurs(old(doc), ErrorSentinel) ==> selection == old(selection) && save == old(save)
      ensures Occurs(old(doc), ErrorSentinel) ==>
                var i := IndexOf(old(doc), ErrorSentinel).value;
                && selection == Range(i + |ErrorHtml(message)|, i + |ErrorHtml(message)|)
                && save == Edit(old(save))
    {
      var found := IndexOf(doc, ErrorSentinel);
      if found.Some? {
        var i := found.value;
        var html := ErrorHtml(message);
        doc := Splice(doc, i, i + |ErrorSentinel|, html);
        selection := Range(i + |html|, i + |html|);
        save := Edit(save);
      }
    }
  }
}
