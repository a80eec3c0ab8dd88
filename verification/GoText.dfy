/** The operations of Go's `strings`, `strconv` and `fmt` packages that the
    messenger uses.  A Go string is a sequence of bytes; here each `char` of a
    `string` stands for one byte. */
module GoText {

  datatype Option<+T> = None | Some(value: T)

  predicate HasPrefix(s: string, prefix: string) {
    prefix <= s
  }

  function TrimPrefix(s: string, prefix: string): string {
    if HasPrefix(s, prefix) then s[|prefix|..] else s
  }

  predicate OccursAt(s: string, sub: string, i: nat) {
    i + |sub| <= |s| && s[i..i + |sub|] == sub
  }

  predicate Contains(s: string, sub: string) {
    exists i: nat | i <= |s| :: OccursAt(s, sub, i)
  }

  /** The position of the first `c` in `s`, or `|s|`. */
  function IndexOf(s: string, c: char): (i: nat)
    ensures i <= |s|
    ensures c !in s[..i]
    ensures i < |s| ==> s[i] == c
  {
    if s == [] || s[0] == c then 0
    else
      var i := IndexOf(s[1..], c);
      assert s[..i + 1] == [s[0]] + s[1..][..i];
      i + 1
  }

  /** `strings.SplitN` with a one-byte separator: at most `n` pieces, or all of
      them when `n` is negative. */
  function SplitN(s: string, sep: char, n: int): (pieces: seq<string>)
    ensures n != 0 ==> pieces != []
    ensures n > 0 ==> |pieces| <= n
    decreases |s|
  {
    if n == 0 then []
    else
      var i := IndexOf(s, sep);
      if n == 1 || i == |s| then [s]
      else [s[..i]] + SplitN(s[i + 1..], sep, if n < 0 then n else n - 1)
  }

  /** The pieces with the separator put back between them. */
  function Join(pieces: seq<string>, sep: string): string {
    if pieces == [] then ""
    else if |pieces| == 1 then pieces[0]
    else pieces[0] + sep + Join(pieces[1..], sep)
  }

  /** The pieces join to the string.  Without a limit no piece holds the separator;
      with one only the last can, and only when the limit is reached. */
  ghost predicate IsSplit(pieces: seq<string>, s: string, sep: char, n: int) {
    && pieces != [] && Join(pieces, [sep]) == s
    && forall i :: 0 <= i < |pieces| && (i < |pieces| - 1 || |pieces| != n) ==> sep !in pieces[i]
  }

  lemma OnePiece(s: string, sep: char, n: int)
    requires n == 1 || sep !in s
    ensures IsSplit([s], s, sep, n)
  {}

  lemma OneMorePiece(first: string, rest: seq<string>, tail: string, sep: char, n: int)
    requires sep !in first && (n < 0 || n >= 2) && IsSplit(rest, tail, sep, if n < 0 then n else n - 1)
    ensures IsSplit([first] + rest, first + [sep] + tail, sep, n)
  {
    JoinFirst(first, rest, [sep]);
  }

  /** Splitting loses nothing and splits wherever it may. */
  lemma {:induction false} SplitJoins(s: string, sep: char, n: int)
    requires n != 0
    ensures IsSplit(SplitN(s, sep, n), s, sep, n)
    decreases |s|
  {
    var k := IndexOf(s, sep);
    if n == 1 || k == |s| {
      assert s[..|s|] == s;
      OnePiece(s, sep, n);
    } else {
      var m := if n < 0 then n else n - 1;
      SplitJoins(s[k + 1..], sep, m);
      OneMorePiece(s[..k], SplitN(s[k + 1..], sep, m), s[k + 1..], sep, n);
      assert s == s[..k] + [sep] + s[k + 1..];
    }
  }

  lemma JoinFirst(first: string, rest: seq<string>, sep: string)
    requires rest != []
    ensures Join([first] + rest, sep) == first + sep + Join(rest, sep)
  {
    assert ([first] + rest)[1..] == rest;
  }

  /** One splitting step: a separator-free piece, the separator, the rest. */
  lemma SplitStep(piece: string, sep: char, rest: string, n: int)
    requires sep !in piece
    requires n < 0 || n >= 2
    ensures SplitN(piece + [sep] + rest, sep, n) == [piece] + SplitN(rest, sep, if n < 0 then n else n - 1)
  {
    var s := piece + [sep] + rest;
    var i := IndexOf(s, sep);
    assert forall j | 0 <= j < |piece| :: s[j] == piece[j];
    assert s[|piece|] == sep;
    assert forall j | 0 <= j < i :: s[j] == s[..i][j];
    assert i == |piece|;
    assert s[..i] == piece && s[i + 1..] == rest;
  }

  lemma SplitNone(s: string, sep: char, n: int)
    requires sep !in s && n != 0
    ensures SplitN(s, sep, n) == [s]
  {}

  /** `fmt.Sprintf("%v", b)`. */
  function FormatBool(b: bool): string {
    if b then "true" else "false"
  }

  /** `strconv.ParseBool`; `None` is its error. */
  function ParseBool(s: string): Option<bool> {
    if s in ["1", "t", "T", "true", "TRUE", "True"] then Some(true)
    else if s in ["0", "f", "F", "false", "FALSE", "False"] then Some(false)
    else None
  }

  lemma ParseFormattedBool(b: bool)
    ensures ParseBool(FormatBool(b)) == Some(b)
    ensures ' ' !in FormatBool(b) && '{' !in FormatBool(b) && '}' !in FormatBool(b)
  {}

  /** No word that `ParseBool` accepts holds a space. */
  lemma SpacedIsNoBool(s: string)
    requires ' ' in s
    ensures ParseBool(s) == None
  {}

  /** The `%d` form of an integer. */
  function Itoa(n: int): string
    decreases n < 0, if n < 0 then -n else n
  {
    if n < 0 then "-" + Itoa(-n)
    else if n < 10 then [('0' as int + n) as char]
    else Itoa(n / 10) + [('0' as int + n % 10) as char]
  }
}
