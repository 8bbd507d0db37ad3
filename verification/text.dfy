/** The Python string primitives the job tool relies on (`str.strip`,
    `str.split(sep)`, `sep.join`, `str.index`, `str.isdigit`, `int`),
    over `string` = `seq<char>`. */
module Text {

  /** Python's `str.isspace` for one character: exactly the characters that
      `str.strip()` with no argument removes. */
  predicate IsSpace(c: char) {
    var n := c as int;
    || (9 <= n <= 13) || (28 <= n <= 32) || n == 0x85 || n == 0xA0 || n == 0x1680
    || (0x2000 <= n <= 0x200A) || n == 0x2028 || n == 0x2029 || n == 0x202F
    || n == 0x205F || n == 0x3000
  }

  /** `s` is whitespace only (`s.isspace()`, or empty): a line ending,
      say. */
  predicate AllSpace(s: string) {
    forall i :: 0 <= i < |s| ==> IsSpace(s[i])
  }

  /** `part` sits in `s` starting at index `k`. */
  predicate OccursAt(part: string, s: string, k: int) {
    0 <= k && k + |part| <= |s| && s[k..k + |part|] == part
  }

  /** Python's `part in s` for strings. */
  predicate IsInfix(part: string, s: string) {
    exists k | 0 <= k <= |s| :: OccursAt(part, s, k)
  }

  /** Python's `s.endswith(suffix)`. */
  predicate EndsWith(s: string, suffix: string) {
    |suffix| <= |s| && s[|s| - |suffix|..] == suffix
  }

  /** `x` occurs in `a + x + b` right after `a`. */
  lemma OccursBetween(a: string, x: string, b: string)
    ensures OccursAt(x, a + x + b, |a|)
    ensures IsInfix(x, a + x + b)
  {
    var s := a + x + b;
    assert s[|a|..|a| + |x|] == x;
    assert OccursAt(x, s, |a|);
  }

  /** Text found in `s` is still found once more text surrounds `s`. */
  lemma InfixGrow(x: string, s: string, a: string, b: string)
    requires IsInfix(x, s)
    ensures IsInfix(x, a + s + b)
  {
    var k :| 0 <= k <= |s| && OccursAt(x, s, k);
    var t := a + s + b;
    assert t[|a| + k..|a| + k + |x|] == s[k..k + |x|];
    assert OccursAt(x, t, |a| + k);
  }

  /** Python's `s.index(c)`: the first position of `c` in `s`. */
  function IndexOf(s: string, c: char): (i: nat)
    requires c in s
    ensures i < |s| && s[i] == c
    ensures c !in s[..i]
  {
    if s[0] == c then 0
    else
      var j := IndexOf(s[1..], c);
      assert s[..j + 1] == [s[0]] + s[1..][..j];
      j + 1
  }

  /** The first occurrence is the only one with no earlier occurrence. */
  lemma IndexOfUnique(s: string, c: char, k: nat)
    requires k < |s| && s[k] == c && c !in s[..k]
    ensures IndexOf(s, c) == k
  {
  }

  /** Python's `sep.join(parts)` for a one-character separator. */
  function Join(parts: seq<string>, sep: char): string
  {
    if |parts| == 0 then ""
    else if |parts| == 1 then parts[0]
    else parts[0] + [sep] + Join(parts[1..], sep)
  }

  /** Joining a first part in front of others. */
  lemma JoinCons(part: string, parts: seq<string>, sep: char)
    requires |parts| > 0
    ensures Join([part] + parts, sep) == part + [sep] + Join(parts, sep)
  {
    assert ([part] + parts)[1..] == parts;
  }

  /** Where the `i`-th part starts inside `Join(parts, sep)`. */
  function JoinOffset(parts: seq<string>, i: nat): nat
    requires i <= |parts|
  {
    if i == 0 then 0 else |parts[0]| + 1 + JoinOffset(parts[1..], i - 1)
  }

  /** `Join` lays the parts out in order, each followed by one separator:
      part `i` sits at `JoinOffset(parts, i)` and is followed by `sep`
      unless it is the last. */
  lemma {:induction false} JoinPlaces(parts: seq<string>, sep: char, i: nat)
    requires i < |parts|
    ensures OccursAt(parts[i], Join(parts, sep), JoinOffset(parts, i))
    ensures i + 1 < |parts| ==> OccursAt([sep], Join(parts, sep), JoinOffset(parts, i) + |parts[i]|)
  {
    if i == 0 {
      if |parts| > 1 {
        assert Join(parts, sep) == parts[0] + [sep] + Join(parts[1..], sep);
      }
    } else {
      JoinPlaces(parts[1..], sep, i - 1);
      var rest := Join(parts[1..], sep);
      assert Join(parts, sep) == (parts[0] + [sep]) + rest;
      var k := JoinOffset(parts[1..], i - 1);
      assert Join(parts, sep)[|parts[0]| + 1 + k..|parts[0]| + 1 + k + |parts[i]|] == rest[k..k + |parts[i]|];
    }
  }

  /** `Join` adds one separator between neighbouring parts and nothing else,
      so with `JoinPlaces` it fixes every character of the result. */
  lemma {:induction false} JoinLength(parts: seq<string>, sep: char)
    requires |parts| >= 1
    ensures |Join(parts, sep)| == JoinOffset(parts, |parts|) - 1
  {
    if |parts| > 1 {
      JoinLength(parts[1..], sep);
    }
  }

  /** Text found at `k` in `s` stays there when more text follows. */
  lemma OccursAtGrow(part: string, s: string, text: string, k: int)
    requires OccursAt(part, s, k)
    ensures OccursAt(part, s + text, k)
  {
    assert (s + text)[k..k + |part|] == s[k..k + |part|];
  }

  /** Text after a join: every part keeps its place, the text ends the
      result, and the length is the parts', the separators' and the text's. */
  lemma JoinThen(parts: seq<string>, sep: char, text: string)
    ensures forall i :: 0 <= i < |parts| ==> OccursAt(parts[i], Join(parts, sep) + text, JoinOffset(parts, i))
    ensures forall i :: 0 <= i < |parts| - 1 ==>
      OccursAt([sep], Join(parts, sep) + text, JoinOffset(parts, i) + |parts[i]|)
    ensures EndsWith(Join(parts, sep) + text, text)
    ensures |Join(parts, sep) + text| == (if parts == [] then 0 else JoinOffset(parts, |parts|) - 1) + |text|
  {
    var joined := Join(parts, sep);
    forall i | 0 <= i < |parts|
      ensures OccursAt(parts[i], joined + text, JoinOffset(parts, i))
      ensures i < |parts| - 1 ==> OccursAt([sep], joined + text, JoinOffset(parts, i) + |parts[i]|)
    {
      JoinPlaces(parts, sep, i);
      OccursAtGrow(parts[i], joined, text, JoinOffset(parts, i));
      if i < |parts| - 1 {
        OccursAtGrow([sep], joined, text, JoinOffset(parts, i) + |parts[i]|);
      }
    }
    assert (joined + text)[|joined|..] == text;
    if parts != [] {
      JoinLength(parts, sep);
    }
  }

  /** Python's `s.split(sep)` for a one-character separator. */
  function Split(s: string, sep: char): (parts: seq<string>)
    ensures |parts| >= 1
    ensures forall i :: 0 <= i < |parts| ==> sep !in parts[i]
    ensures Join(parts, sep) == s
    decreases |s|
  {
    if sep !in s then [s]
    else
      var i := IndexOf(s, sep);
      var rest := Split(s[i + 1..], sep);
      var parts := [s[..i]] + rest;
      assert parts[1..] == rest;
      assert s == s[..i] + [sep] + s[i + 1..];
      parts
  }

  /** `Split` undoes `Join` when no part contains the separator. */
  lemma {:induction false} SplitJoin(parts: seq<string>, sep: char)
    requires |parts| >= 1
    requires forall i :: 0 <= i < |parts| ==> sep !in parts[i]
    ensures Split(Join(parts, sep), sep) == parts
  {
    if |parts| > 1 {
      var s := Join(parts, sep);
      var rest := Join(parts[1..], sep);
      assert s == parts[0] + [sep] + rest;
      assert s[|parts[0]|] == sep && s[..|parts[0]|] == parts[0];
      IndexOfUnique(s, sep, |parts[0]|);
      assert s[|parts[0]| + 1..] == rest;
      SplitJoin(parts[1..], sep);
      assert parts == [parts[0]] + parts[1..];
    }
  }

  /** The non-empty parts, in order (`[p for p in parts if p != '']`). */
  function DropEmpty(parts: seq<string>): (r: seq<string>)
    ensures forall i :: 0 <= i < |r| ==> r[i] != [] && r[i] in parts
    ensures (forall i :: 0 <= i < |parts| ==> parts[i] != []) ==> r == parts
    ensures |parts| > 0 && parts[0] != [] ==> |r| > 0 && r[0] == parts[0]
  {
    if |parts| == 0 then []
    else if parts[0] == [] then DropEmpty(parts[1..])
    else [parts[0]] + DropEmpty(parts[1..])
  }

  /** `[t for t in s.split(' ') if t != '']`: the words of `s` between runs of
      plain spaces. Other whitespace (a tab, say) stays inside a word. */
  function Tokens(s: string): (words: seq<string>)
    ensures forall i :: 0 <= i < |words| ==> words[i] != [] && ' ' !in words[i]
    ensures s != [] && s[0] != ' ' ==> |words| > 0
  {
    var parts := Split(s, ' ');
    assert s != [] && s[0] != ' ' && ' ' in s ==> IndexOf(s, ' ') > 0;
    assert s != [] && s[0] != ' ' ==> parts[0] != [];
    DropEmpty(parts)
  }

  /** A word of visible text: non-empty and free of whitespace. */
  predicate IsWord(w: string) {
    w != [] && forall i :: 0 <= i < |w| ==> !IsSpace(w[i])
  }

  /** One more word in front keeps a run of words. */
  lemma WordsCons(w: string, ws: seq<string>)
    requires IsWord(w)
    requires forall i :: 0 <= i < |ws| ==> IsWord(ws[i])
    ensures forall i :: 0 <= i < |[w] + ws| ==> IsWord(([w] + ws)[i])
  {
    forall i | 0 <= i < |[w] + ws|
      ensures IsWord(([w] + ws)[i])
    {
      if i > 0 {
        assert ([w] + ws)[i] == ws[i - 1];
      }
    }
  }

  /** Visible text next to visible text is visible. */
  lemma WordConcat(a: string, b: string)
    requires IsWord(a) && IsWord(b)
    ensures IsWord(a + b)
  {
    forall i | 0 <= i < |a + b|
      ensures !IsSpace((a + b)[i])
    {
      if i >= |a| {
        assert (a + b)[i] == b[i - |a|];
      } else {
        assert (a + b)[i] == a[i];
      }
    }
  }

  /** Tokenising words joined by single spaces gives the words back. */
  lemma TokensJoin(words: seq<string>)
    requires |words| >= 1
    requires forall i :: 0 <= i < |words| ==> IsWord(words[i])
    ensures Tokens(Join(words, ' ')) == words
  {
    forall i, k | 0 <= i < |words| && 0 <= k < |words[i]|
      ensures words[i][k] != ' '
    {
      assert !IsSpace(words[i][k]);
    }
    SplitJoin(words, ' ');
  }

  /** `n` plain spaces. */
  function Spaces(n: nat): string {
    seq(n, _ => ' ')
  }

  /** Splitting at the first separator, which ends the first part. */
  lemma SplitAfterPart(part: string, sep: char, rest: string)
    requires sep !in part
    ensures Split(part + [sep] + rest, sep) == [part] + Split(rest, sep)
  {
    var s := part + [sep] + rest;
    assert s[..|part|] == part;
    IndexOfUnique(s, sep, |part|);
    assert s[|part| + 1..] == rest;
  }

  /** Filtering out empty parts, one part at a time. */
  lemma DropEmptyCons(part: string, parts: seq<string>)
    ensures DropEmpty([part] + parts) == (if part == [] then [] else [part]) + DropEmpty(parts)
  {
    assert ([part] + parts)[1..] == parts;
  }

  /** Leading spaces give no words. */
  lemma {:induction false} TokensSpaces(n: nat, s: string)
    ensures Tokens(Spaces(n) + s) == Tokens(s)
  {
    if n == 0 {
      assert Spaces(n) + s == s;
    } else {
      var t := Spaces(n - 1) + s;
      assert Spaces(n) + s == [] + [' '] + t;
      SplitAfterPart([], ' ', t);
      DropEmptyCons([], Split(t, ' '));
      TokensSpaces(n - 1, s);
    }
  }

  /** A word ended by one or more spaces is the first word. */
  lemma TokensWord(w: string, n: nat, s: string)
    requires w != [] && ' ' !in w
    ensures Tokens(w + Spaces(n + 1) + s) == [w] + Tokens(s)
  {
    var t := Spaces(n) + s;
    assert w + Spaces(n + 1) + s == w + [' '] + t;
    SplitAfterPart(w, ' ', t);
    DropEmptyCons(w, Split(t, ' '));
    TokensSpaces(n, s);
  }

  /** The words `words` laid out with spaces: `gaps[0]` spaces before the
      first word, `1 + gaps[i]` spaces before word `i > 0`, and `trail`
      spaces after the last. */
  function Spaced(words: seq<string>, gaps: seq<nat>, trail: nat): string
    requires |gaps| == |words|
  {
    if |words| == 0 then Spaces(trail)
    else if |words| == 1 then Spaces(gaps[0]) + words[0] + Spaces(trail)
    else Spaces(gaps[0]) + words[0] + " " + Spaced(words[1..], gaps[1..], trail)
  }

  /** A lone word between spaces. */
  lemma TokensLone(lead: nat, w: string, trail: nat)
    requires w != [] && ' ' !in w
    ensures Tokens(Spaces(lead) + w + Spaces(trail)) == [w]
  {
    if trail == 0 {
      assert Spaces(lead) + w + Spaces(trail) == Spaces(lead) + w;
      TokensSpaces(lead, w);
    } else {
      TokensPadded(lead, w, trail - 1);
    }
  }

  /** A lone word with at least one space after it. */
  lemma TokensPadded(lead: nat, w: string, n: nat)
    requires w != [] && ' ' !in w
    ensures Tokens(Spaces(lead) + w + Spaces(n + 1)) == [w]
  {
    var t := w + Spaces(n + 1) + [];
    assert Spaces(lead) + w + Spaces(n + 1) == Spaces(lead) + t;
    TokensSpaces(lead, t);
    TokensWord(w, n, []);
    assert Tokens([]) == [];
  }

  /** A word after leading spaces and before one more space is the first. */
  lemma TokensLead(lead: nat, w: string, rest: string)
    requires w != [] && ' ' !in w
    ensures Tokens(Spaces(lead) + w + " " + rest) == [w] + Tokens(rest)
  {
    var t := w + Spaces(0 + 1) + rest;
    assert Spaces(0 + 1) == " ";
    assert Spaces(lead) + w + " " + rest == Spaces(lead) + t;
    TokensSpaces(lead, t);
    TokensWord(w, 0, rest);
  }

  /** `Tokens` finds exactly the words, however many spaces separate them and
      however many lead or trail. */
  lemma {:induction false} TokensSpaced(words: seq<string>, gaps: seq<nat>, trail: nat)
    requires |gaps| == |words|
    requires forall i :: 0 <= i < |words| ==> words[i] != [] && ' ' !in words[i]
    ensures Tokens(Spaced(words, gaps, trail)) == words
  {
    if |words| == 0 {
      TokensNone(trail);
    } else if |words| == 1 {
      TokensLone(gaps[0], words[0], trail);
    } else {
      TokensSpaced(words[1..], gaps[1..], trail);
      TokensMore(words, gaps, trail);
    }
  }

  /** Spaces alone give no words. */
  lemma TokensNone(n: nat)
    ensures Tokens(Spaces(n)) == []
  {
    assert Spaces(n) == Spaces(n) + [];
    TokensSpaces(n, []);
  }

  /** The inductive step of `TokensSpaced`: one more word in front. */
  lemma TokensMore(words: seq<string>, gaps: seq<nat>, trail: nat)
    requires |gaps| == |words| > 1
    requires words[0] != [] && ' ' !in words[0]
    requires Tokens(Spaced(words[1..], gaps[1..], trail)) == words[1..]
    ensures Tokens(Spaced(words, gaps, trail)) == words
  {
    TokensLead(gaps[0], words[0], Spaced(words[1..], gaps[1..], trail));
    assert words == [words[0]] + words[1..];
  }

  /** Words joined by single spaces start and end with a visible character. */
  lemma {:induction false} JoinWordsEnds(words: seq<string>)
    requires |words| >= 1
    requires forall i :: 0 <= i < |words| ==> IsWord(words[i])
    ensures var s := Join(words, ' '); s != [] && !IsSpace(s[0]) && !IsSpace(s[|s| - 1])
  {
    if |words| > 1 {
      JoinWordsEnds(words[1..]);
      var rest := Join(words[1..], ' ');
      assert Join(words, ' ') == words[0] + [' '] + rest;
    }
  }

  /** `s.lstrip()`. */
  function StripStart(s: string): (r: string)
    ensures |r| <= |s| && r == s[|s| - |r|..]
    ensures forall i :: 0 <= i < |s| - |r| ==> IsSpace(s[i])
    ensures r == [] || !IsSpace(r[0])
    decreases |s|
  {
    if |s| > 0 && IsSpace(s[0]) then StripStart(s[1..]) else s
  }

  /** `s.rstrip()`. */
  function StripEnd(s: string): (r: string)
    ensures |r| <= |s| && r == s[..|r|]
    ensures forall i :: |r| <= i < |s| ==> IsSpace(s[i])
    ensures r == [] || !IsSpace(r[|r| - 1])
    decreases |s|
  {
    if |s| > 0 && IsSpace(s[|s| - 1]) then StripEnd(s[..|s| - 1]) else s
  }

  /** Python's `s.strip()`: the text without leading and trailing whitespace.
      The result is empty exactly when `s` is all whitespace, and text that
      already starts and ends with a visible character is left alone. */
  function Strip(s: string): (r: string)
    ensures r == [] || (!IsSpace(r[0]) && !IsSpace(r[|r| - 1]))
    ensures r == [] <==> AllSpace(s)
    ensures s == [] || (!IsSpace(s[0]) && !IsSpace(s[|s| - 1])) ==> r == s
    ensures exists i, j :: 0 <= i <= j <= |s| && r == s[i..j] && AllSpace(s[..i]) && AllSpace(s[j..])
  {
    StripFacts(s);
    var left := StripStart(s);
    StripSlices(s, left, StripEnd(left));
    StripEnd(left)
  }

  lemma StripFacts(s: string)
    ensures var r := StripEnd(StripStart(s)); r != [] ==> r[0] == StripStart(s)[0]
    ensures StripEnd(StripStart(s)) == [] ==> AllSpace(s)
  {
    var left := StripStart(s);
    var r := StripEnd(left);
    if r == [] {
      // all of `left` is whitespace, and `left` starts with none
      assert left == [];
    }
  }

  /** Whitespace cut from both ends of `s` leaves a slice of `s` with only
      whitespace on either side of it. */
  lemma StripSlices(s: string, left: string, r: string)
    requires |left| <= |s| && left == s[|s| - |left|..]
    requires forall k :: 0 <= k < |s| - |left| ==> IsSpace(s[k])
    requires |r| <= |left| && r == left[..|r|]
    requires forall k :: |r| <= k < |left| ==> IsSpace(left[k])
    ensures var i := |s| - |left|; r == s[i..i + |r|] && AllSpace(s[..i]) && AllSpace(s[i + |r|..])
    ensures exists i, j :: 0 <= i <= j <= |s| && r == s[i..j] && AllSpace(s[..i]) && AllSpace(s[j..])
  {
    var i := |s| - |left|;
    assert s[i..i + |r|] == left[..|r|];
    var after := s[i + |r|..];
    forall k | 0 <= k < |after|
      ensures IsSpace(after[k])
    {
      assert after[k] == left[|r| + k];
    }
  }

  /** Trailing whitespace (a line ending, say) is dropped by `StripEnd`. */
  lemma {:induction false} StripEndPadding(text: string, ending: string)
    requires text == [] || !IsSpace(text[|text| - 1])
    requires AllSpace(ending)
    ensures StripEnd(text + ending) == text
    decreases |ending|
  {
    if |ending| == 0 {
      assert text + ending == text;
    } else {
      var shorter := ending[..|ending| - 1];
      assert (text + ending)[..|text + ending| - 1] == text + shorter;
      StripEndPadding(text, shorter);
    }
  }

  /** Visible text followed by whitespace strips to the text. */
  lemma StripPadding(text: string, ending: string)
    requires text != [] && !IsSpace(text[0]) && !IsSpace(text[|text| - 1])
    requires AllSpace(ending)
    ensures Strip(text + ending) == text
  {
    assert StripStart(text + ending) == text + ending;
    StripEndPadding(text, ending);
  }

  /** Being found in is transitive. */
  lemma InfixTrans(x: string, y: string, z: string)
    requires IsInfix(x, y) && IsInfix(y, z)
    ensures IsInfix(x, z)
  {
    var i :| 0 <= i <= |y| && OccursAt(x, y, i);
    var j :| 0 <= j <= |z| && OccursAt(y, z, j);
    assert z[j..j + |y|] == y;
    forall n | 0 <= n < |x|
      ensures z[j + i + n] == x[n]
    {
      assert z[j + i + n] == z[j..j + |y|][i + n];
    }
    assert z[j + i..j + i + |x|] == x;
    assert OccursAt(x, z, j + i);
  }

  /** `[x for x in xs[i:] if x.startswith(prefix)]`. */
  function StartingWithFrom(xs: seq<string>, prefix: string, i: nat): (r: seq<string>)
    requires i <= |xs|
    ensures forall x :: x in r <==> x in xs[i..] && prefix <= x
    ensures |r| <= |xs| - i
    decreases |xs| - i
  {
    if i == |xs| then []
    else
      assert xs[i..] == [xs[i]] + xs[i + 1..];
      (if prefix <= xs[i] then [xs[i]] else []) + StartingWithFrom(xs, prefix, i + 1)
  }

  /** `[x for x in xs if x.startswith(prefix)]`: the strings of `xs` that
      start with `prefix`, in their order. */
  function StartingWith(xs: seq<string>, prefix: string): (r: seq<string>)
    ensures forall x :: x in r <==> x in xs && prefix <= x
  {
    assert xs[0..] == xs;
    StartingWithFrom(xs, prefix, 0)
  }

  /** When one string of `xs` starts with `prefix`, every string of `xs`
      that does is that one. */
  lemma OnlyStartingWith(xs: seq<string>, prefix: string)
    requires |StartingWith(xs, prefix)| == 1
    ensures forall x | x in xs && prefix <= x :: x == StartingWith(xs, prefix)[0]
  {
    forall x | x in xs && prefix <= x
      ensures x == StartingWith(xs, prefix)[0]
    {
      assert x in StartingWith(xs, prefix);
    }
  }

  /** Python's `s.isdigit()` restricted to ASCII digits. */
  predicate IsDigits(s: string) {
    |s| > 0 && forall i :: 0 <= i < |s| ==> '0' <= s[i] <= '9'
  }

  /** Python's `int(s)` on a string of ASCII digits. */
  function DecimalValue(s: string): nat
    requires forall i :: 0 <= i < |s| ==> '0' <= s[i] <= '9'
  {
    if |s| == 0 then 0
    else DecimalValue(s[..|s| - 1]) * 10 + (s[|s| - 1] as int - '0' as int)
  }

  /** Python's `str(n)` for a natural number. */
  function DecimalString(n: nat): (s: string)
    ensures IsDigits(s)
  {
    var d := ['0' + (n % 10) as char];
    if n < 10 then d else DecimalString(n / 10) + d
  }

  /** `int(str(n)) == n`. */
  lemma {:induction false} DecimalRoundTrip(n: nat)
    ensures DecimalValue(DecimalString(n)) == n
  {
    var s := DecimalString(n);
    if n >= 10 {
      DecimalRoundTrip(n / 10);
      assert s[..|s| - 1] == DecimalString(n / 10);
    }
  }
}
