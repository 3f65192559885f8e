/** Kotlin's `String.split` on a one-character delimiter, its inverse
    `joinToString`, and `isBlank`. */
module Text {

  /** No piece contains the character. */
  predicate FreeOf(parts: seq<string>, c: char)
  {
    forall i :: 0 <= i < |parts| ==> c !in parts[i]
  }

  /** `parts` joined with `sep` between neighbours (`joinToString(sep)`): the
      first piece comes first, and no character is added but the separator. */
  function Join(parts: seq<string>, sep: char): (s: string)
    ensures |parts| >= 1 ==> |parts[0]| <= |s| && s[..|parts[0]|] == parts[0]
    ensures forall c :: c != sep && FreeOf(parts, c) ==> c !in s
  {
    if |parts| == 0 then ""
    else if |parts| == 1 then parts[0]
    else
      var rest := Join(parts[1..], sep);
      assert forall c :: FreeOf(parts, c) ==> FreeOf(parts[1..], c);
      parts[0] + [sep] + rest
  }

  /** `s.split(sep)`: cut at every occurrence of `sep`, keeping empty pieces
      (also the leading and trailing ones), so there is always at least one
      piece and one more piece than there are separators. */
  function Split(s: string, sep: char): (parts: seq<string>)
    ensures |parts| >= 1
    ensures FreeOf(parts, sep)
    ensures Join(parts, sep) == s
  {
    if |s| == 0 then [""]
    else
      var rest := Split(s[1..], sep);
      if s[0] == sep then
        assert s == [sep] + s[1..];
        [""] + rest
      else
        JoinExtendsFirst([s[0]], rest, sep);
        assert s == [s[0]] + s[1..];
        [[s[0]] + rest[0]] + rest[1..]
  }

  /** Prepending characters to the first piece prepends them to the join. */
  lemma JoinExtendsFirst(x: string, parts: seq<string>, sep: char)
    requires |parts| >= 1
    ensures Join([x + parts[0]] + parts[1..], sep) == x + Join(parts, sep)
  {
    var longer := [x + parts[0]] + parts[1..];
    if |parts| == 1 {
      assert longer == [x + parts[0]];
    } else {
      assert longer[1..] == parts[1..];
      var tail := Join(parts[1..], sep);
      assert (x + parts[0]) + [sep] + tail == x + (parts[0] + [sep] + tail);
    }
  }

  /** A string without the separator is a single piece. */
  lemma {:induction false} SplitFree(s: string, sep: char)
    requires sep !in s
    ensures Split(s, sep) == [s]
  {
    if |s| > 0 {
      SplitFree(s[1..], sep);
    }
  }

  /** Splitting `a + sep + b` where `a` holds no separator yields `a` first. */
  lemma {:induction false} SplitCons(a: string, sep: char, b: string)
    requires sep !in a
    ensures Split(a + [sep] + b, sep) == [a] + Split(b, sep)
  {
    if |a| == 0 {
      assert a + [sep] + b == [sep] + b;
      assert ([sep] + b)[1..] == b;
    } else {
      assert (a + [sep] + b)[1..] == a[1..] + [sep] + b;
      SplitCons(a[1..], sep, b);
      assert [a[0]] + a[1..] == a;
    }
  }

  /** Round trip: splitting a join of separator-free pieces gives the pieces back. */
  lemma {:induction false} SplitJoin(parts: seq<string>, sep: char)
    requires |parts| >= 1
    requires FreeOf(parts, sep)
    ensures Split(Join(parts, sep), sep) == parts
  {
    if |parts| == 1 {
      SplitFree(parts[0], sep);
    } else {
      SplitJoin(parts[1..], sep);
      SplitCons(parts[0], sep, Join(parts[1..], sep));
      assert [parts[0]] + parts[1..] == parts;
    }
  }

  /** A header line in front of a join splits off as the first piece. */
  lemma SplitHeader(header: string, parts: seq<string>, sep: char)
    requires sep !in header
    requires |parts| >= 1 && FreeOf(parts, sep)
    ensures Split(header + [sep] + Join(parts, sep), sep) == [header] + parts
  {
    SplitCons(header, sep, Join(parts, sep));
    SplitJoin(parts, sep);
  }

  /** Kotlin's `Char.isWhitespace`: Java's `Character.isWhitespace` or
      `Character.isSpaceChar` (the Unicode space, line and paragraph separators). */
  predicate IsWhitespace(c: char)
  {
    c == ' ' || c == '\t' || c == '\n' || c == '\U{000B}' || c == '\U{000C}' || c == '\r'
    || ('\U{001C}' <= c <= '\U{001F}')
    || c == '\U{00A0}' || c == '\U{1680}'
    || ('\U{2000}' <= c <= '\U{200A}')
    || c == '\U{2028}' || c == '\U{2029}' || c == '\U{202F}' || c == '\U{205F}' || c == '\U{3000}'
  }

  /** `isBlank()`, which walks the string with `all { it.isWhitespace() }`:
      true exactly for an empty or whitespace-only string. */
  predicate IsBlank(s: string): (r: bool)
    ensures r <==> forall i :: 0 <= i < |s| ==> IsWhitespace(s[i])
  {
    |s| == 0 || (IsWhitespace(s[0]) && IsBlank(s[1..]))
  }
}
