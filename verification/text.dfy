/** The JavaScript string operations the handlers and the editor rely on
    (`indexOf`, `replace`, `split`, `join`, `trim`, number-to-string), written
    over `seq<char>`, with the properties that pin each of them down. */
module Text {
  import opened Common

  // ---------------------------------------------------------------------------
  // Searching and replacing

  /** `pat` occurs in `s` starting at index `i`. */
  predicate OccursAt(s: string, pat: string, i: nat) {
    i + |pat| <= |s| && s[i..i + |pat|] == pat
  }

  predicate Occurs(s: string, pat: string) {
    exists i: nat :: i <= |s| && OccursAt(s, pat, i)
  }

  /** The first index at or after `from` where `pat` occurs. */
  function IndexFrom(s: string, pat: string, from: nat): (r: Option<nat>)
    ensures r.Some? ==> from <= r.value && OccursAt(s, pat, r.value)
    ensures r.Some? ==> forall j: nat :: from <= j < r.value ==> !OccursAt(s, pat, j)
    ensures r.None? ==> forall j: nat :: from <= j ==> !OccursAt(s, pat, j)
    decreases |s| - from
  {
    if from + |pat| > |s| then None
    else if s[from..from + |pat|] == pat then Some(from)
    else IndexFrom(s, pat, from + 1)
  }

  /** `String.prototype.indexOf`: the first occurrence of `pat`, or none (-1). */
  function IndexOf(s: string, pat: string): (r: Option<nat>)
    ensures r.Some? <==> Occurs(s, pat)
    ensures r.Some? ==> OccursAt(s, pat, r.value)
    ensures r.Some? ==> forall j: nat :: j < r.value ==> !OccursAt(s, pat, j)
  {
    IndexFrom(s, pat, 0)
  }

  /** Delete `s[from..to]` and insert `ins` in its place. */
  function Splice(s: string, from: nat, to: nat, ins: string): (r: string)
    requires from <= to <= |s|
    ensures |r| == |s| - (to - from) + |ins|
    ensures r[..from] == s[..from] && r[from..from + |ins|] == ins && r[from + |ins|..] == s[to..]
  {
    s[..from] + ins + s[to..]
  }

  /** Replace the first occurrence of `pat` by `rep`; no occurrence, no change. */
  function ReplaceFirst(s: string, pat: string, rep: string): string {
    match IndexOf(s, pat)
    case None => s
    case Some(i) => Splice(s, i, i + |pat|, rep)
  }

  /** When the first occurrence of `pat` in `a + pat + b` is the one after `a`,
      replacing it leaves `a` and `b` exactly as they were. */
  lemma ReplaceFirstAt(a: string, pat: string, b: string, rep: string)
    requires forall j: nat :: j < |a| ==> !OccursAt(a + pat + b, pat, j)
    ensures ReplaceFirst(a + pat + b, pat, rep) == a + rep + b
  {
    var s := a + pat + b;
    assert s[|a|..|a| + |pat|] == pat;
    assert OccursAt(s, pat, |a|);
    var i := IndexOf(s, pat).value;
    assert i == |a|;
    assert s[..|a|] == a && s[|a| + |pat|..] == b;
  }

  /** Nothing to replace: the text comes back unchanged. */
  lemma ReplaceFirstAbsent(s: string, pat: string, rep: string)
    requires !Occurs(s, pat)
    ensures ReplaceFirst(s, pat, rep) == s
  {
  }

  // ---------------------------------------------------------------------------
  // Splitting and joining on one character

  /** `String.prototype.split` with a one-character separator: the pieces
      between separators, always at least one. */
  function Split(s: string, sep: char): (parts: seq<string>)
    ensures |parts| >= 1
    ensures forall k :: 0 <= k < |parts| ==> sep !in parts[k]
  {
    if s == [] then [[]]
    else
      var rest := Split(s[1..], sep);
      if s[0] == sep then [[]] + rest
      else [[s[0]] + rest[0]] + rest[1..]
  }

  /** `Array.prototype.join`. */
  function Join(parts: seq<string>, sep: string): string {
    if |parts| == 0 then []
    else if |parts| == 1 then parts[0]
    else parts[0] + sep + Join(parts[1..], sep)
  }

  /** `s.replace(/c/g, rep)`: every occurrence of the character `c` replaced by `rep`. */
  function ReplaceChar(s: string, c: char, rep: string): string {
    if s == [] then []
    else (if s[0] == c then rep else [s[0]]) + ReplaceChar(s[1..], c, rep)
  }

  lemma JoinCons(x: string, rest: seq<string>, sep: string)
    requires |rest| >= 1
    ensures Join([x] + rest, sep) == x + sep + Join(rest, sep)
  {
    assert ([x] + rest)[1..] == rest;
  }

  lemma JoinExtendHead(y: string, rest: seq<string>, sep: string)
    requires |rest| >= 1
    ensures Join([y + rest[0]] + rest[1..], sep) == y + Join(rest, sep)
  {
    if |rest| > 1 {
      JoinCons(y + rest[0], rest[1..], sep);
      JoinCons(rest[0], rest[1..], sep);
      assert [rest[0]] + rest[1..] == rest;
    }
  }

  /** Replacing every `c` is the same as splitting on `c` and joining with the replacement. */
  lemma {:induction false} ReplaceCharIsJoinOfSplit(s: string, c: char, rep: string)
    ensures ReplaceChar(s, c, rep) == Join(Split(s, c), rep)
  {
    if s != [] {
      ReplaceCharIsJoinOfSplit(s[1..], c, rep);
      var rest := Split(s[1..], c);
      if s[0] == c {
        JoinCons([], rest, rep);
      } else {
        JoinExtendHead([s[0]], rest, rep);
      }
    }
  }

  lemma {:induction false} ReplaceCharBySelf(s: string, c: char)
    ensures ReplaceChar(s, c, [c]) == s
  {
    if s != [] {
      ReplaceCharBySelf(s[1..], c);
      assert s == [s[0]] + s[1..];
    }
  }

  /** Splitting and joining back with the same separator gives the text back. */
  lemma JoinSplit(s: string, sep: char)
    ensures Join(Split(s, sep), [sep]) == s
  {
    ReplaceCharIsJoinOfSplit(s, sep, [sep]);
    ReplaceCharBySelf(s, sep);
  }

  lemma {:induction false} SplitWithoutSeparator(a: string, sep: char)
    requires sep !in a
    ensures Split(a, sep) == [a]
  {
    if a != [] {
      SplitWithoutSeparator(a[1..], sep);
      assert a == [a[0]] + a[1..];
    }
  }

  /** The piece before the first separator comes first, the rest is split on. */
  lemma {:induction false} SplitAtSeparator(a: string, sep: char, b: string)
    requires sep !in a
    ensures Split(a + [sep] + b, sep) == [a] + Split(b, sep)
  {
    if a == [] {
      assert a + [sep] + b == [sep] + b;
      assert ([sep] + b)[1..] == b;
    } else {
      var s := a + [sep] + b;
      assert s[0] == a[0] && s[1..] == a[1..] + [sep] + b;
      SplitAtSeparator(a[1..], sep, b);
      assert [a[0]] + a[1..] == a;
    }
  }

  /** Splitting undoes joining, for pieces without the separator. */
  lemma {:induction false} SplitJoin(parts: seq<string>, sep: char)
    requires |parts| >= 1
    requires forall k :: 0 <= k < |parts| ==> sep !in parts[k]
    ensures Split(Join(parts, [sep]), sep) == parts
    decreases |parts|
  {
    if |parts| == 1 {
      SplitWithoutSeparator(parts[0], sep);
    } else {
      SplitJoin(parts[1..], sep);
      SplitAtSeparator(parts[0], sep, Join(parts[1..], [sep]));
      assert [parts[0]] + parts[1..] == parts;
    }
  }

  // ---------------------------------------------------------------------------
  // Trimming

  /** The characters `String.prototype.trim` removes: ECMAScript WhiteSpace
      (tab, vertical tab, form feed, space, no-break space, byte-order mark and
      the Unicode space separators) and LineTerminator. */
  predicate IsSpace(c: char) {
    || c == '\t' || c == '\n' || c == '\U{000B}' || c == '\U{000C}' || c == '\r'
    || c == ' ' || c == '\U{00A0}' || c == '\U{1680}'
    || ('\U{2000}' <= c <= '\U{200A}')
    || c == '\U{2028}' || c == '\U{2029}' || c == '\U{202F}' || c == '\U{205F}'
    || c == '\U{3000}' || c == '\U{FEFF}'
  }

  predicate AllSpace(s: string) {
    forall k :: 0 <= k < |s| ==> IsSpace(s[k])
  }

  /** No white space at either end. */
  predicate Trimmed(s: string) {
    s == [] || (!IsSpace(s[0]) && !IsSpace(s[|s| - 1]))
  }

  /** `String.prototype.trimStart`: the longest suffix not starting with white space. */
  function TrimStart(s: string): (r: string)
    ensures |r| <= |s| && r == s[|s| - |r|..]
    ensures AllSpace(s[..|s| - |r|])
    ensures r != [] ==> !IsSpace(r[0])
  {
    if s != [] && IsSpace(s[0]) then TrimStart(s[1..]) else s
  }

  /** `String.prototype.trimEnd`: the longest prefix not ending with white space. */
  function TrimEnd(s: string): (r: string)
    ensures |r| <= |s| && r == s[..|r|]
    ensures AllSpace(s[|r|..])
    ensures r != [] ==> !IsSpace(r[|r| - 1])
  {
    if s != [] && IsSpace(s[|s| - 1]) then TrimEnd(s[..|s| - 1]) else s
  }

  /** `String.prototype.trim`. */
  function Trim(s: string): (r: string)
    ensures Trimmed(r)
  {
    TrimEnd(TrimStart(s))
  }

  lemma {:induction false} TrimStartSkips(lead: string, rest: string)
    requires AllSpace(lead) && (rest == [] || !IsSpace(rest[0]))
    ensures TrimStart(lead + rest) == rest
  {
    if lead == [] {
      assert lead + rest == rest;
    } else {
      assert (lead + rest)[1..] == lead[1..] + rest;
      TrimStartSkips(lead[1..], rest);
    }
  }

  lemma {:induction false} TrimEndSkips(rest: string, trail: string)
    requires AllSpace(trail) && (rest == [] || !IsSpace(rest[|rest| - 1]))
    ensures TrimEnd(rest + trail) == rest
  {
    if trail == [] {
      assert rest + trail == rest;
    } else {
      var s := rest + trail;
      assert s[..|s| - 1] == rest + trail[..|trail| - 1];
      TrimEndSkips(rest, trail[..|trail| - 1]);
    }
  }

  /** `trim` removes exactly the white space around a trimmed core: padding a
      trimmed text with white space and trimming it gives the text back. */
  lemma TrimOfPadded(lead: string, core: string, trail: string)
    requires AllSpace(lead) && AllSpace(trail) && Trimmed(core)
    ensures Trim(lead + core + trail) == core
  {
    if core == [] {
      assert lead + core + trail == lead + trail;
      assert AllSpace(lead + trail);
      TrimStartSkips(lead + trail, []);
      assert lead + trail + [] == lead + trail;
    } else {
      assert lead + core + trail == lead + (core + trail);
      TrimStartSkips(lead, core + trail);
      TrimEndSkips(core, trail);
    }
  }

  /** Trimming twice changes nothing more. */
  lemma TrimIdempotent(s: string)
    ensures Trim(Trim(s)) == Trim(s)
  {
    var r := Trim(s);
    assert [] + r + [] == r;
    TrimOfPadded([], r, []);
  }

  // ---------------------------------------------------------------------------
  // Numbers as decimal text

  predicate IsDigits(s: string) {
    forall k :: 0 <= k < |s| ==> '0' <= s[k] <= '9'
  }

  function DigitChar(d: nat): (c: char)
    requires d < 10
    ensures '0' <= c <= '9' && c as int - '0' as int == d
  {
    ('0' as int + d) as char
  }

  /** `String(n)` for a non-negative integer such as `Date.now()`. */
  function Decimal(n: nat): (r: string)
    ensures r != [] && IsDigits(r)
  {
    if n < 10 then [DigitChar(n)] else Decimal(n / 10) + [DigitChar(n % 10)]
  }

  /** Reading decimal digits back as a number. */
  function ParseDecimal(s: string): nat
    requires IsDigits(s)
  {
    if s == [] then 0
    else 10 * ParseDecimal(s[..|s| - 1]) + (s[|s| - 1] as int - '0' as int)
  }

  /** The decimal text of a number reads back as that number. */
  lemma {:induction false} ParseDecimalOfDecimal(n: nat)
    ensures ParseDecimal(Decimal(n)) == n
  {
    if n >= 10 {
      ParseDecimalOfDecimal(n / 10);
      var r := Decimal(n);
      assert r[..|r| - 1] == Decimal(n / 10);
    }
  }
}
