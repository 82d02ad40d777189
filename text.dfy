/**
 * The field splitting applied to every input line: the line is cut at each
 * comma, Python's str.split(','), and each field loses its surrounding
 * whitespace, Python's str.strip().
 */
module Text {

  /** Python's str.split(sep): the pieces between occurrences of sep. */
  function Split(s: string, sep: char): (parts: seq<string>)
    ensures |parts| >= 1
    ensures forall i :: 0 <= i < |parts| ==> sep !in parts[i]
  {
    if |s| == 0 then [""]
    else
      var rest := Split(s[1..], sep);
      if s[0] == sep then [""] + rest
      else [[s[0]] + rest[0]] + rest[1..]
  }

  /** Python's sep.join(parts). */
  function Join(parts: seq<string>, sep: char): string
    requires |parts| >= 1
  {
    if |parts| == 1 then parts[0] else parts[0] + [sep] + Join(parts[1..], sep)
  }

  /** Joining the pieces again gives back the line. */
  lemma {:induction false} JoinSplit(s: string, sep: char)
    ensures Join(Split(s, sep), sep) == s
  {
    if |s| > 0 {
      var rest := Split(s[1..], sep);
      JoinSplit(s[1..], sep);
      if s[0] != sep {
        if |rest| == 1 {
          assert Split(s, sep) == [[s[0]] + rest[0]];
        } else {
          assert Split(s, sep)[1..] == rest[1..];
          assert s == [s[0]] + s[1..];
        }
      }
    }
  }

  /** Splitting a join of comma-free pieces gives back the pieces. */
  lemma {:induction false} SplitJoin(parts: seq<string>, sep: char)
    requires |parts| >= 1
    requires forall i :: 0 <= i < |parts| ==> sep !in parts[i]
    ensures Split(Join(parts, sep), sep) == parts
  {
    if |parts| == 1 {
      SplitNoSep(parts[0], sep);
    } else {
      SplitJoin(parts[1..], sep);
      SplitAfterPiece(parts[0], Join(parts[1..], sep), sep);
      assert parts == [parts[0]] + parts[1..];
    }
  }

  lemma {:induction false} SplitNoSep(s: string, sep: char)
    requires sep !in s
    ensures Split(s, sep) == [s]
  {
    if |s| > 0 {
      SplitNoSep(s[1..], sep);
      assert [s[0]] + s[1..] == s;
    }
  }

  lemma {:induction false} SplitAfterPiece(p: string, t: string, sep: char)
    requires sep !in p
    ensures Split(p + [sep] + t, sep) == [p] + Split(t, sep)
  {
    if |p| == 0 {
      assert p + [sep] + t == [sep] + t;
      assert ([sep] + t)[1..] == t;
    } else {
      SplitAfterPiece(p[1..], t, sep);
      assert (p + [sep] + t)[1..] == p[1..] + [sep] + t;
      assert [p[0]] + p[1..] == p;
    }
  }

  /** The characters for which Python's str.isspace() holds. */
  predicate IsSpace(c: char) {
    || c == ' ' || c == '\t' || c == '\n' || c == '\r' || c == '\U{000B}' || c == '\U{000C}'
    || ('\U{001C}' <= c <= '\U{001F}')
    || c == '\U{0085}' || c == '\U{00A0}' || c == '\U{1680}'
    || ('\U{2000}' <= c <= '\U{200A}')
    || c == '\U{2028}' || c == '\U{2029}' || c == '\U{202F}' || c == '\U{205F}' || c == '\U{3000}'
  }

  predicate AllSpace(s: string) {
    forall i :: 0 <= i < |s| ==> IsSpace(s[i])
  }

  /**
   * r is s with its leading and trailing whitespace cut off, and nothing
   * else: a slice of s with only whitespace before and after it, which
   * neither begins nor ends with whitespace.
   */
  ghost predicate TrimmedOf(r: string, s: string) {
    && (exists a, b :: 0 <= a <= b <= |s| && r == s[a..b] && AllSpace(s[..a]) && AllSpace(s[b..]))
    && (|r| > 0 ==> !IsSpace(r[0]) && !IsSpace(r[|r| - 1]))
  }

  function StripLeft(s: string): string {
    if |s| > 0 && IsSpace(s[0]) then StripLeft(s[1..]) else s
  }

  function StripRight(s: string): string {
    if |s| > 0 && IsSpace(s[|s| - 1]) then StripRight(s[..|s| - 1]) else s
  }

  lemma {:induction false} StripLeftSlice(s: string)
    ensures var r := StripLeft(s);
      && |r| <= |s| && r == s[|s| - |r|..]
      && AllSpace(s[..|s| - |r|])
      && (|r| > 0 ==> !IsSpace(r[0]))
  {
    if |s| > 0 && IsSpace(s[0]) {
      StripLeftSlice(s[1..]);
      var r := StripLeft(s);
      assert s[1..][|s| - 1 - |r|..] == s[|s| - |r|..];
      assert forall i :: 1 <= i < |s| - |r| ==> s[i] == s[1..][..|s| - 1 - |r|][i - 1];
    }
  }

  lemma {:induction false} StripRightSlice(s: string)
    ensures var r := StripRight(s);
      && |r| <= |s| && r == s[..|r|]
      && AllSpace(s[|r|..])
      && (|r| > 0 ==> !IsSpace(r[|r| - 1]))
  {
    if |s| > 0 && IsSpace(s[|s| - 1]) {
      var t := s[..|s| - 1];
      StripRightSlice(t);
      var r := StripRight(s);
      assert t[..|r|] == s[..|r|];
      assert forall i :: |r| <= i < |s| - 1 ==> s[i] == t[|r|..][i - |r|];
    }
  }

  /** Python's str.strip() with no argument: exactly the surrounding whitespace goes. */
  function Strip(s: string): (r: string)
    ensures TrimmedOf(r, s)
  {
    var l := StripLeft(s);
    StripLeftSlice(s);
    StripRightSlice(l);
    var t := StripRight(l);
    var a := |s| - |l|;
    var b := a + |t|;
    assert t == l[..|t|] == s[a..b];
    assert l[|t|..] == s[b..];
    assert |t| > 0 ==> t[0] == l[0];
    t
  }

  /** pieces are the comma-free pieces that, joined with commas, give line. */
  ghost predicate CommaPieces(line: string, pieces: seq<string>) {
    && |pieces| >= 1
    && Join(pieces, ',') == line
    && forall i :: 0 <= i < |pieces| ==> ',' !in pieces[i]
  }

  /** fields are the comma-separated pieces of line, each with its surrounding whitespace cut off. */
  ghost predicate FieldsOf(line: string, fields: seq<string>) {
    exists pieces :: CommaPieces(line, pieces) && |pieces| == |fields|
      && forall i :: 0 <= i < |fields| ==> TrimmedOf(fields[i], pieces[i])
  }

  /** A line of the input file as the list of its stripped fields. */
  function ParseLine(line: string): (fields: seq<string>)
    ensures |fields| >= 1
  {
    var parts := Split(line, ',');
    seq(|parts|, i requires 0 <= i < |parts| => Strip(parts[i]))
  }

  /** The fields of a line are its comma-separated pieces with the surrounding whitespace cut off. */
  lemma ParseLineMeaning(line: string)
    ensures FieldsOf(line, ParseLine(line))
  {
    var parts := Split(line, ',');
    JoinSplit(line, ',');
    assert CommaPieces(line, parts);
  }

  /** A field without whitespace at either end is left as it is. */
  lemma StripUnspaced(s: string)
    requires |s| > 0 && !IsSpace(s[0]) && !IsSpace(s[|s| - 1])
    ensures Strip(s) == s
  {
    assert StripLeft(s) == s;
    assert StripRight(s) == s;
  }

  /** A line made of comma-free names without surrounding whitespace parses back to those names. */
  lemma ParseUnspaced(names: seq<string>)
    requires |names| >= 1
    requires forall i :: 0 <= i < |names| ==> ',' !in names[i] && |names[i]| > 0
    requires forall i :: 0 <= i < |names| ==> !IsSpace(names[i][0]) && !IsSpace(names[i][|names[i]| - 1])
    ensures ParseLine(Join(names, ',')) == names
  {
    SplitJoin(names, ',');
    forall i | 0 <= i < |names| ensures Strip(names[i]) == names[i] {
      StripUnspaced(names[i]);
    }
  }
}
