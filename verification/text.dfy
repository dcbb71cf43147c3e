/** The string operations bowl.py relies on: `str.strip()`, `str.split()`,
    `str.split(sep)`, `sep.join(...)` and `str.isidentifier()`. */
module Text {
  import opened Wrappers

  /** Python's whitespace set: the characters for which `str.isspace()` holds and
      on which `str.strip()` and `str.split()` (without a separator) act. */
  predicate IsSpace(c: char) {
    || ('\t' <= c <= '\r')
    || ('\U{1c}' <= c <= '\U{1f}')
    || c == ' '
    || c == '\U{85}'
    || c == '\U{a0}'
    || c == '\U{1680}'
    || ('\U{2000}' <= c <= '\U{200a}')
    || c == '\U{2028}'
    || c == '\U{2029}'
    || c == '\U{202f}'
    || c == '\U{205f}'
    || c == '\U{3000}'
  }

  predicate AllSpace(s: string) {
    forall i :: 0 <= i < |s| ==> IsSpace(s[i])
  }

  predicate NoSpace(s: string) {
    forall i :: 0 <= i < |s| ==> !IsSpace(s[i])
  }

  /** Neither begins nor ends with whitespace: a fixed point of `strip()`. */
  predicate IsStripped(s: string) {
    |s| == 0 || (!IsSpace(s[0]) && !IsSpace(s[|s| - 1]))
  }

  /** `s.lstrip()`: the suffix left after dropping all leading whitespace. */
  function TrimLeft(s: string): (r: string)
    ensures |r| <= |s| && r == s[|s| - |r|..]
    ensures AllSpace(s[..|s| - |r|])
    ensures |r| == 0 || !IsSpace(r[0])
    decreases |s|
  {
    if |s| > 0 && IsSpace(s[0]) then
      var r := TrimLeft(s[1..]);
      assert s[..|s| - |r|] == [s[0]] + s[1..][..|s| - 1 - |r|];
      r
    else
      s
  }

  /** `s.rstrip()`: the prefix left after dropping all trailing whitespace. */
  function TrimRight(s: string): (r: string)
    ensures |r| <= |s| && r == s[..|r|]
    ensures AllSpace(s[|r|..])
    ensures |r| == 0 || !IsSpace(r[|r| - 1])
    decreases |s|
  {
    if |s| > 0 && IsSpace(s[|s| - 1]) then
      var r := TrimRight(s[..|s| - 1]);
      assert s[|r|..] == s[..|s| - 1][|r|..] + [s[|s| - 1]];
      r
    else
      s
  }

  /** `s.strip()`: `s` with its whitespace padding removed on both sides. */
  function Strip(s: string): (r: string)
    ensures IsStripped(r)
    ensures |r| <= |s|
    ensures AllSpace(s) <==> |r| == 0
  {
    var l := TrimLeft(s);
    var r := TrimRight(l);
    assert |l| > 0 ==> l[0] == s[|s| - |l|];
    assert s[..|s|] == s;
    assert l[0..] == l;
    assert |r| > 0 ==> r[0] == l[0];
    r
  }

  lemma TrimLeftPadded(a: string, m: string)
    requires AllSpace(a)
    requires |m| == 0 || !IsSpace(m[0])
    ensures TrimLeft(a + m) == m
    decreases |a|
  {
    if |a| > 0 {
      var s := a + m;
      assert s[0] == a[0];
      assert s[1..] == a[1..] + m;
      TrimLeftPadded(a[1..], m);
      assert TrimLeft(s) == TrimLeft(s[1..]);
    } else {
      assert a + m == m;
    }
  }

  lemma TrimRightPadded(m: string, b: string)
    requires AllSpace(b)
    requires |m| == 0 || !IsSpace(m[|m| - 1])
    ensures TrimRight(m + b) == m
    decreases |b|
  {
    if |b| > 0 {
      var s := m + b;
      assert s[|s| - 1] == b[|b| - 1];
      assert s[..|s| - 1] == m + b[..|b| - 1];
      TrimRightPadded(m, b[..|b| - 1]);
      assert TrimRight(s) == TrimRight(s[..|s| - 1]);
    } else {
      assert m + b == m;
    }
  }

  /** `strip()` removes exactly the whitespace padding and nothing else: padding
      any stripped string with whitespace on both sides is undone by `Strip`. */
  lemma StripPadded(a: string, m: string, b: string)
    requires AllSpace(a) && AllSpace(b) && IsStripped(m)
    ensures Strip(a + m + b) == m
  {
    assert a + m + b == a + (m + b);
    if |m| > 0 {
      assert (m + b)[0] == m[0];
    } else {
      assert m + b == b;
      if |b| > 0 {
        // the whole line is whitespace
        assert AllSpace(a + b);
        assert AllSpace(a + m + b);
      }
    }
    if |m| == 0 && |b| > 0 {
      assert Strip(a + m + b) == [];
    } else {
      TrimLeftPadded(a, m + b);
      TrimRightPadded(m, b);
    }
  }

  predicate IsAsciiLetter(c: char) {
    ('a' <= c <= 'z') || ('A' <= c <= 'Z')
  }

  predicate IsAsciiDigit(c: char) {
    '0' <= c <= '9'
  }

  /** `s.isidentifier()`, restricted to ASCII: a letter or underscore, then
      letters, digits and underscores. */
  predicate IsIdentifier(s: string) {
    && |s| > 0
    && (IsAsciiLetter(s[0]) || s[0] == '_')
    && forall i :: 1 <= i < |s| ==> IsAsciiLetter(s[i]) || IsAsciiDigit(s[i]) || s[i] == '_'
  }

  /** The index of the first occurrence of `c` in `s`, if any (`s.find(c)`). */
  function IndexOf(s: string, c: char): (r: Option<nat>)
    ensures r.None? <==> c !in s
    ensures r.Some? ==> r.value < |s| && s[r.value] == c && c !in s[..r.value]
    decreases |s|
  {
    if |s| == 0 then None
    else if s[0] == c then Some(0)
    else
      match IndexOf(s[1..], c)
      case None => None
      case Some(i) =>
        assert s[..i + 1] == [s[0]] + s[1..][..i];
        Some(i + 1)
  }

  lemma {:induction false} IndexOfFirst(s: string, c: char, i: nat)
    requires i < |s| && s[i] == c && c !in s[..i]
    ensures IndexOf(s, c) == Some(i)
  {
    if i > 0 {
      assert s[0] == s[..i][0];
      assert s[1..][..i - 1] == s[1..i];
      assert s[1..i] == s[..i][1..];
      IndexOfFirst(s[1..], c, i - 1);
    }
  }

  /** `sep.join(parts)` for a one-character separator. */
  function Join(parts: seq<string>, sep: char): string
    decreases |parts|
  {
    if |parts| == 0 then ""
    else if |parts| == 1 then parts[0]
    else parts[0] + [sep] + Join(parts[1..], sep)
  }

  /** `s.split(sep)` for a one-character separator: never empty, no piece holds
      the separator, and joining the pieces back gives `s`. */
  function Split(s: string, sep: char): (r: seq<string>)
    ensures |r| >= 1
    ensures forall i :: 0 <= i < |r| ==> sep !in r[i]
    ensures Join(r, sep) == s
    decreases |s|
  {
    match IndexOf(s, sep)
    case None => [s]
    case Some(i) =>
      var rest := Split(s[i + 1..], sep);
      var r := [s[..i]] + rest;
      assert r[1..] == rest;
      assert s == s[..i] + [sep] + s[i + 1..];
      r
  }

  lemma {:induction false} JoinNoSep(parts: seq<string>, sep: char, j: nat)
    requires 1 <= |parts|
    requires forall i :: 0 <= i < |parts| ==> sep !in parts[i]
    requires j == |parts[0]|
    ensures |Join(parts, sep)| >= j
    ensures Join(parts, sep)[..j] == parts[0]
    ensures sep !in parts[0]
    ensures |parts| == 1 ==> Join(parts, sep) == parts[0]
    ensures |parts| > 1 ==> Join(parts, sep)[j] == sep && Join(parts, sep)[j + 1..] == Join(parts[1..], sep)
  {
    if |parts| > 1 {
      var s := Join(parts, sep);
      assert s == parts[0] + [sep] + Join(parts[1..], sep);
      assert s[j + 1..] == Join(parts[1..], sep);
    }
  }

  /** The other half of the round trip: splitting a join of separator-free
      pieces gives the pieces back. */
  lemma {:induction false} SplitJoin(parts: seq<string>, sep: char)
    requires 1 <= |parts|
    requires forall i :: 0 <= i < |parts| ==> sep !in parts[i]
    ensures Split(Join(parts, sep), sep) == parts
    decreases |parts|
  {
    var s := Join(parts, sep);
    JoinNoSep(parts, sep, |parts[0]|);
    if |parts| == 1 {
      assert IndexOf(s, sep).None?;
    } else {
      var i := |parts[0]|;
      assert s[i] == sep;
      IndexOfFirst(s, sep, i);
      SplitJoin(parts[1..], sep);
      assert Split(s, sep) == [parts[0]] + parts[1..];
    }
  }

  /** The longest whitespace-free prefix of `s`. */
  function WordPrefix(s: string): (w: string)
    ensures |w| <= |s| && w == s[..|w|]
    ensures NoSpace(w)
    ensures |w| == |s| || IsSpace(s[|w|])
    decreases |s|
  {
    if |s| == 0 || IsSpace(s[0]) then ""
    else
      var w := WordPrefix(s[1..]);
      assert [s[0]] + w == s[..|w| + 1];
      [s[0]] + w
  }

  /** `s.split()`: the maximal runs of non-whitespace characters, in order. */
  function Words(s: string): (r: seq<string>)
    ensures forall i :: 0 <= i < |r| ==> |r[i]| > 0 && NoSpace(r[i])
    ensures |r| == 0 <==> AllSpace(s)
    decreases |s|
  {
    if |s| == 0 then []
    else if IsSpace(s[0]) then
      var r := Words(s[1..]);
      assert AllSpace(s) <==> AllSpace(s[1..]) by {
        if AllSpace(s[1..]) {
          forall i | 0 <= i < |s| ensures IsSpace(s[i]) {
            if i > 0 { assert s[i] == s[1..][i - 1]; }
          }
        }
      }
      r
    else
      var w := WordPrefix(s);
      assert w[0] == s[0];
      var rest := Words(s[|w|..]);
      var r := [w] + rest;
      assert r[1..] == rest;
      r
  }

  lemma WordPrefixOf(w: string, t: string)
    requires NoSpace(w)
    requires |t| == 0 || IsSpace(t[0])
    ensures WordPrefix(w + t) == w
    decreases |w|
  {
    if |w| > 0 {
      assert (w + t)[0] == w[0];
      assert (w + t)[1..] == w[1..] + t;
      WordPrefixOf(w[1..], t);
    } else {
      assert w + t == t;
    }
  }

  /** Joining non-empty whitespace-free words with single spaces and splitting
      on whitespace gives the words back. */
  lemma {:induction false} WordsJoin(words: seq<string>)
    requires forall i :: 0 <= i < |words| ==> |words[i]| > 0 && NoSpace(words[i])
    ensures Words(Join(words, ' ')) == words
    decreases |words|
  {
    if |words| == 0 {
    } else if |words| == 1 {
      var w := words[0];
      WordPrefixOf(w, "");
      assert w + "" == w;
      assert w[|w|..] == "";
    } else {
      var w := words[0];
      var rest := Join(words[1..], ' ');
      var s := Join(words, ' ');
      assert s == w + ([' '] + rest);
      WordPrefixOf(w, [' '] + rest);
      assert s[|w|..] == [' '] + rest;
      assert ([' '] + rest)[1..] == rest;
      WordsJoin(words[1..]);
      assert words == [w] + words[1..];
    }
  }

  /** `split()` skips leading whitespace and takes the next maximal run of
      non-whitespace as its first word. With the blank case of `Words`'s own
      contract this fixes the result on every input. */
  lemma {:induction false} WordsFirst(a: string, w: string, b: string)
    requires AllSpace(a) && |w| > 0 && NoSpace(w)
    requires |b| == 0 || IsSpace(b[0])
    ensures Words(a + w + b) == [w] + Words(b)
    decreases |a|
  {
    var s := a + w + b;
    if |a| > 0 {
      assert s[0] == a[0];
      assert s[1..] == a[1..] + w + b;
      WordsFirst(a[1..], w, b);
    } else {
      assert s == w + b;
      assert s[0] == w[0];
      WordPrefixOf(w, b);
      assert s[|w|..] == b;
    }
  }
}
