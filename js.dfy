/** The few JavaScript built-ins the terminal front end relies on, stated over
    Dafny strings: values that may be `null`, string truthiness,
    `String.prototype.trim`, `String.prototype.split` on one character and
    `Array.prototype.join` with one character. */
module Js {

  /** A JavaScript value that may be `null` (a cancelled `window.prompt`, a missing prop). */
  datatype Option<T> = None | Some(value: T)

  /** `!!s` for a string that may be null: `null` and `""` are falsy, every other string is truthy. */
  predicate Truthy(s: Option<string>): (b: bool)
    ensures s == None ==> !b
    ensures s.Some? ==> (b <==> |s.value| > 0)
  {
    s.Some? && s.value != ""
  }

  /** The characters `trim` removes: the WhiteSpace and LineTerminator code points of ECMAScript
      (tab, vertical tab, form feed, space, no-break space, byte order mark, the space separators
      of category Zs, line feed, carriage return, line and paragraph separator). */
  predicate IsWhiteSpace(c: char) {
    c == '\t' || c == '\n' || c == '\U{000B}' || c == '\U{000C}' || c == '\r' || c == ' ' ||
    c == '\U{00A0}' || c == '\U{1680}' || ('\U{2000}' <= c <= '\U{200A}') ||
    c == '\U{2028}' || c == '\U{2029}' || c == '\U{202F}' || c == '\U{205F}' ||
    c == '\U{3000}' || c == '\U{FEFF}'
  }

  /** `s` with its leading white space removed: a suffix of `s` that does not start with white space,
      and everything cut off is white space. */
  function TrimStart(s: string): (r: string)
    ensures |r| <= |s| && r == s[|s| - |r|..]
    ensures r == [] || !IsWhiteSpace(r[0])
    ensures forall i :: 0 <= i < |s| - |r| ==> IsWhiteSpace(s[i])
  {
    if s != [] && IsWhiteSpace(s[0]) then TrimStart(s[1..]) else s
  }

  /** `s` with its trailing white space removed: a prefix of `s` that does not end with white space,
      and everything cut off is white space. */
  function TrimEnd(s: string): (r: string)
    ensures |r| <= |s| && r == s[..|r|]
    ensures r == [] || !IsWhiteSpace(r[|r| - 1])
    ensures forall i :: |r| <= i < |s| ==> IsWhiteSpace(s[i])
  {
    if s != [] && IsWhiteSpace(s[|s| - 1]) then TrimEnd(s[..|s| - 1]) else s
  }

  /** Number of white-space characters at the start of `s`. */
  function Leading(s: string): (n: nat)
    ensures n <= |s|
  {
    |s| - |TrimStart(s)|
  }

  /** `s.trim()`: the piece of `s` after its leading white space, with white space at neither end,
      empty exactly when `s` consists of white space only. */
  function Trim(s: string): (r: string)
    ensures Leading(s) + |r| <= |s| && r == s[Leading(s)..Leading(s) + |r|]
    ensures forall i :: Leading(s) + |r| <= i < |s| ==> IsWhiteSpace(s[i])
    ensures r != [] ==> !IsWhiteSpace(r[0]) && !IsWhiteSpace(r[|r| - 1])
    ensures r == [] <==> forall i :: 0 <= i < |s| ==> IsWhiteSpace(s[i])
  {
    var t := TrimStart(s);
    var r := TrimEnd(t);
    assert r == s[|s| - |t|..|s| - |t| + |r|];
    if r == [] then
      assert t == [];
      r
    else
      assert !IsWhiteSpace(s[|s| - |t|]);
      r
  }

  /** `!s.trim()`: the input is empty or white space only. */
  predicate IsBlank(s: string): (b: bool)
    ensures b <==> forall i :: 0 <= i < |s| ==> IsWhiteSpace(s[i])
  {
    Trim(s) == ""
  }

  /** Number of occurrences of `c` in `s`. */
  function Count(s: string, c: char): nat {
    if s == [] then 0 else (if s[0] == c then 1 else 0) + Count(s[1..], c)
  }

  /** `s.split(sep)` for a one-character separator: one piece more than there are separators,
      none of the pieces contains the separator, and `""` gives `[""]`. */
  function Split(s: string, sep: char): (r: seq<string>)
    ensures |r| == Count(s, sep) + 1
    ensures forall i :: 0 <= i < |r| ==> sep !in r[i]
    decreases |s|
  {
    if s == [] then [""]
    else
      var rest := Split(s[1..], sep);
      if s[0] == sep then [""] + rest
      else [[s[0]] + rest[0]] + rest[1..]
  }

  /** `pieces.join(sep)` for a one-character separator (`[].join(sep)` is `""`). */
  function Join(pieces: seq<string>, sep: char): string {
    if |pieces| == 0 then ""
    else if |pieces| == 1 then pieces[0]
    else pieces[0] + [sep] + Join(pieces[1..], sep)
  }

  /** Joining the pieces of a split with the same separator gives back the original string. */
  lemma {:induction false} SplitJoin(s: string, sep: char)
    ensures Join(Split(s, sep), sep) == s
    decreases |s|
  {
    if s != [] {
      var rest := Split(s[1..], sep);
      SplitJoin(s[1..], sep);
      if s[0] == sep {
        assert ([""] + rest)[1..] == rest;
        assert s == [sep] + s[1..];
      } else {
        var r := [[s[0]] + rest[0]] + rest[1..];
        if |rest| == 1 {
          assert Join(rest, sep) == rest[0];
        } else {
          assert r[1..] == rest[1..];
          assert Join(rest, sep) == rest[0] + [sep] + Join(rest[1..], sep);
        }
        assert s == [s[0]] + s[1..];
      }
    }
  }

  /** Splitting a string that starts with a separator-free piece `a` glues `a` to the first piece. */
  lemma {:induction false} SplitPrefix(a: string, t: string, sep: char)
    requires sep !in a
    ensures Split(a + t, sep) == [a + Split(t, sep)[0]] + Split(t, sep)[1..]
    decreases |a|
  {
    if a == [] {
      assert a + t == t;
      assert a + Split(t, sep)[0] == Split(t, sep)[0];
      assert Split(t, sep) == [Split(t, sep)[0]] + Split(t, sep)[1..];
    } else {
      var s := a + t;
      assert s[0] == a[0] && s[1..] == a[1..] + t;
      SplitPrefix(a[1..], t, sep);
      assert [a[0]] + (a[1..] + Split(t, sep)[0]) == a + Split(t, sep)[0];
    }
  }

  /** Splitting a join of separator-free pieces gives back the pieces (at least one piece is
      needed, since `[].join` and `[""].join` are both `""`). */
  lemma {:induction false} JoinSplit(pieces: seq<string>, sep: char)
    requires |pieces| >= 1
    requires forall i :: 0 <= i < |pieces| ==> sep !in pieces[i]
    ensures Split(Join(pieces, sep), sep) == pieces
    decreases |pieces|
  {
    if |pieces| == 1 {
      SplitPrefix(pieces[0], "", sep);
      assert pieces[0] + "" == pieces[0];
    } else {
      var tail := Join(pieces[1..], sep);
      JoinSplit(pieces[1..], sep);
      var t := [sep] + tail;
      assert t[0] == sep && t[1..] == tail;
      assert Split(t, sep) == [""] + pieces[1..];
      SplitPrefix(pieces[0], t, sep);
      assert pieces[0] + [sep] + tail == pieces[0] + t;
      assert pieces[0] + "" == pieces[0];
      assert ([""] + pieces[1..])[1..] == pieces[1..];
    }
  }
}
