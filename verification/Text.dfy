/** Strings as the Go code sees them: ordering, searching and splitting. */
module Text {

  datatype Option<T> = None | Some(value: T)

  /** Lexicographic order, as Go compares strings. */
  predicate StringLe(a: string, b: string) {
    a == "" || (b != "" && (a[0] < b[0] || (a[0] == b[0] && StringLe(a[1..], b[1..]))))
  }

  /** The order of Go strings: a prefix comes first, else the first difference decides. */
  lemma {:induction false} StringLeExactly(a: string, b: string)
    ensures StringLe(a, b) <==>
            a <= b || exists i | 0 <= i < |a| && i < |b| :: a[..i] == b[..i] && a[i] < b[i]
  {
    if a != "" && b != "" {
      if a[0] == b[0] {
        StringLeExactly(a[1..], b[1..]);
        assert a == [a[0]] + a[1..] && b == [b[0]] + b[1..];
        if i :| 0 <= i < |a| - 1 && i < |b| - 1 && a[1..][..i] == b[1..][..i] && a[1..][i] < b[1..][i] {
          assert a[..i + 1] == [a[0]] + a[1..][..i] && b[..i + 1] == [b[0]] + b[1..][..i];
        }
        if i :| 0 <= i < |a| && i < |b| && a[..i] == b[..i] && a[i] < b[i] {
          assert a[1..][..i - 1] == a[..i][1..] && b[1..][..i - 1] == b[..i][1..];
        }
      } else {
        assert a[..0] == b[..0];
        if i :| 0 <= i < |a| && i < |b| && a[..i] == b[..i] && a[i] < b[i] {
          assert i > 0 ==> a[..i][0] == a[0] && b[..i][0] == b[0];
        }
      }
    }
  }

  lemma {:induction false} StringLeTotal(a: string, b: string)
    ensures StringLe(a, b) || StringLe(b, a)
  {
    if a != "" && b != "" && a[0] == b[0] {
      StringLeTotal(a[1..], b[1..]);
    }
  }

  lemma {:induction false} StringLeAntisymmetric(a: string, b: string)
    requires StringLe(a, b) && StringLe(b, a)
    ensures a == b
  {
    if a != "" && b != "" {
      StringLeAntisymmetric(a[1..], b[1..]);
      assert a == [a[0]] + a[1..] && b == [b[0]] + b[1..];
    }
  }

  lemma {:induction false} StringLeTransitive(a: string, b: string, c: string)
    requires StringLe(a, b) && StringLe(b, c)
    ensures StringLe(a, c)
  {
    if a != "" && a[0] == b[0] && b[0] == c[0] {
      StringLeTransitive(a[1..], b[1..], c[1..]);
    }
  }

  // ---------------------------------------------------------------- searching

  /** The first position of c, or -1. */
  function Index(s: string, c: char): (i: int)
    ensures -1 <= i < |s|
    ensures i >= 0 ==> s[i] == c && forall k | 0 <= k < i :: s[k] != c
    ensures i < 0 ==> forall k | 0 <= k < |s| :: s[k] != c
  {
    if s == "" then -1
    else if s[0] == c then 0
    else var i := Index(s[1..], c); if i < 0 then -1 else i + 1
  }

  /** The last position of c, or -1. */
  function LastIndex(s: string, c: char): (i: int)
    ensures -1 <= i < |s|
    ensures i >= 0 ==> s[i] == c && forall k | i < k < |s| :: s[k] != c
    ensures i < 0 ==> forall k | 0 <= k < |s| :: s[k] != c
  {
    if s == "" then -1
    else if s[|s| - 1] == c then |s| - 1
    else LastIndex(s[..|s| - 1], c)
  }

  lemma IndexIs(s: string, c: char, i: nat)
    requires i < |s| && s[i] == c && forall k | 0 <= k < i :: s[k] != c
    ensures Index(s, c) == i
  {
  }

  /** Splits at every c; n occurrences make n + 1 pieces. */
  function Split(s: string, c: char): seq<string> {
    SplitFrom("", s, c)
  }

  function SplitFrom(piece: string, s: string, c: char): seq<string>
    decreases |s|
  {
    if s == "" then [piece]
    else if s[0] == c then [piece] + SplitFrom("", s[1..], c)
    else SplitFrom(piece + [s[0]], s[1..], c)
  }

  /** Drops every trailing c. */
  function TrimRight(s: string, c: char): string {
    if s != "" && s[|s| - 1] == c then TrimRight(s[..|s| - 1], c) else s
  }

  // ---------------------------------------------------------------- trimming

  predicate IsBlank(c: char) {
    c == ' ' || c == '\t'
  }

  predicate IsSpace(c: char) {
    c in {' ', '\t', '\n', '\r', '\U{0B}', '\U{0C}'}
  }

  predicate HasPrefix(s: string, prefix: string) {
    prefix <= s
  }

  function TrimPrefix(s: string, prefix: string): string {
    if HasPrefix(s, prefix) then s[|prefix|..] else s
  }

  predicate IsIndented(line: string) {
    line != "" && IsBlank(line[0])
  }

  /** Drops leading blanks and tabs. */
  function TrimIndent(s: string): string {
    if s != "" && IsBlank(s[0]) then TrimIndent(s[1..]) else s
  }

  lemma {:induction false} TrimsIndent(indent: string, s: string)
    requires forall i | 0 <= i < |indent| :: IsBlank(indent[i])
    requires s != "" && !IsBlank(s[0])
    ensures TrimIndent(indent + s) == s
  {
    if indent == "" {
      assert indent + s == s;
    } else {
      assert (indent + s)[1..] == indent[1..] + s;
      TrimsIndent(indent[1..], s);
    }
  }

  function TrimLeftSpace(s: string): string {
    if s != "" && IsSpace(s[0]) then TrimLeftSpace(s[1..]) else s
  }

  function TrimRightSpace(s: string): string {
    if s != "" && IsSpace(s[|s| - 1]) then TrimRightSpace(s[..|s| - 1]) else s
  }

  function TrimSpace(s: string): string {
    TrimRightSpace(TrimLeftSpace(s))
  }

  function TrimLeft(s: string, c: char): string {
    if s != "" && s[0] == c then TrimLeft(s[1..], c) else s
  }

  /** Drops every leading and trailing c. */
  function Trim(s: string, c: char): string {
    TrimRight(TrimLeft(s, c), c)
  }

  /** No space at either end. */
  predicate Tight(s: string) {
    s == "" || (!IsSpace(s[0]) && !IsSpace(s[|s| - 1]))
  }

  lemma TrimTight(s: string)
    requires Tight(s)
    ensures TrimSpace(s) == s && TrimSpace(" " + s) == s
  {
  }

  /** Quoting and trimming the quotes is the identity on what does not itself begin or end with one. */
  lemma Unquote(s: string, c: char)
    requires s != "" && s[0] != c && s[|s| - 1] != c
    ensures Trim([c] + s + [c], c) == s
  {
    var t := [c] + s + [c];
    assert t[1..] == s + [c];
    assert TrimLeft(t, c) == s + [c];
    assert (s + [c])[..|s|] == s;
    assert TrimRight(s + [c], c) == TrimRight(s, c) == s;
  }

  // ---------------------------------------------------------------- fields

  /** The maximal runs of non-space characters. */
  function Fields(s: string): seq<string> {
    FieldsFrom("", s)
  }

  function FieldsFrom(word: string, s: string): seq<string>
    decreases |s|
  {
    if s == "" then Word(word)
    else if IsSpace(s[0]) then Word(word) + FieldsFrom("", s[1..])
    else FieldsFrom(word + [s[0]], s[1..])
  }

  function Word(word: string): seq<string> {
    if word == "" then [] else [word]
  }

  predicate IsWord(w: string) {
    w != "" && forall i | 0 <= i < |w| :: !IsSpace(w[i])
  }

  /** The words with one blank between them. */
  function Join(words: seq<string>): string {
    if words == [] then ""
    else if |words| == 1 then words[0]
    else words[0] + " " + Join(words[1..])
  }

  lemma {:induction false} FieldsReadsWord(word: string, w: string, rest: string)
    requires forall i | 0 <= i < |w| :: !IsSpace(w[i])
    ensures FieldsFrom(word, w + rest) == FieldsFrom(word + w, rest)
    decreases |w|
  {
    if w == "" {
      assert w + rest == rest && word + w == word;
    } else {
      assert (w + rest)[1..] == w[1..] + rest;
      FieldsReadsWord(word + [w[0]], w[1..], rest);
      assert word + [w[0]] + w[1..] == word + w;
    }
  }

  lemma {:induction false} FieldsOfJoin(words: seq<string>)
    requires forall w | w in words :: IsWord(w)
    ensures Fields(Join(words)) == words
  {
    if words != [] {
      var w := words[0];
      assert IsWord(w);
      if |words| == 1 {
        FieldsReadsWord("", w, "");
        assert w + "" == w && "" + w == w;
      } else {
        var rest := " " + Join(words[1..]);
        FieldsReadsWord("", w, rest);
        assert Join(words) == w + rest && "" + w == w;
        assert rest[1..] == Join(words[1..]);
        FieldsOfJoin(words[1..]);
      }
    }
  }

  // ---------------------------------------------------------------- numbers

  predicate IsDigit(c: char) {
    '0' <= c <= '9'
  }

  function DigitOf(c: char): nat
    requires IsDigit(c)
  {
    c as int - '0' as int
  }

  function Digit(d: nat): (c: char)
    requires d < 10
    ensures IsDigit(c) && DigitOf(c) == d
  {
    ('0' as int + d) as char
  }

  predicate AllDigits(s: string) {
    forall i | 0 <= i < |s| :: IsDigit(s[i])
  }

  function Number(s: string): nat
    requires AllDigits(s)
  {
    if s == "" then 0 else 10 * Number(s[..|s| - 1]) + DigitOf(s[|s| - 1])
  }

  /** A non-empty run of decimal digits below the bound. */
  function ParseUint(s: string, bound: nat): Option<nat> {
    if s != "" && AllDigits(s) && Number(s) < bound then Some(Number(s)) else None
  }

  function Decimal(n: nat): string {
    if n < 10 then [Digit(n)] else Decimal(n / 10) + [Digit(n % 10)]
  }

  lemma {:induction false} DecimalRoundTrip(n: nat)
    ensures Decimal(n) != "" && AllDigits(Decimal(n)) && Number(Decimal(n)) == n
  {
    if n < 10 {
      assert Decimal(n)[..0] == "";
    } else {
      DecimalRoundTrip(n / 10);
      var s := Decimal(n);
      assert s[..|s| - 1] == Decimal(n / 10);
    }
  }

  // ---------------------------------------------------------------- host names

  function Lower(s: string): string {
    seq(|s|, i requires 0 <= i < |s| =>
      if 'A' <= s[i] <= 'Z' then (s[i] as int - 'A' as int + 'a' as int) as char else s[i])
  }

  /** Lower case, without surrounding space and one final dot. */
  function NormalizeHost(host: string): string {
    var h := TrimSpace(host);
    Lower(if h != "" && h[|h| - 1] == '.' then h[..|h| - 1] else h)
  }

  /** A word normalises to the empty name exactly when it is the root. */
  lemma OnlyRootIsNameless(q: string)
    requires IsWord(q)
    ensures NormalizeHost(q) == "" <==> q == "."
  {
    assert Tight(q);
    TrimTight(q);
  }

  /** The normal form of a name: without its final dot, and with its ASCII capitals lowered. */
  lemma NormalFormIs(name: string)
    requires IsWord(name) && name[|name| - 1] != '.'
    ensures NormalizeHost(name + ".") == NormalizeHost(name) && |NormalizeHost(name)| == |name|
    ensures forall i | 0 <= i < |name| ::
              NormalizeHost(name)[i] == if 'A' <= name[i] <= 'Z' then (name[i] as int + 32) as char else name[i]
  {
    var dotted := name + ".";
    TrimTight(name);
    TrimTight(dotted);
    assert dotted[..|dotted| - 1] == name;
  }

  // ---------------------------------------------------------------- substrings

  /** The first position where pattern starts, or -1. */
  function Find(s: string, pattern: string): (i: int)
    ensures -1 <= i && (i >= 0 ==> i + |pattern| <= |s| && s[i..i + |pattern|] == pattern)
  {
    if HasPrefix(s, pattern) then 0
    else if s == "" then -1
    else
      var i := Find(s[1..], pattern);
      if i < 0 then -1
      else
        assert s[1..][i..i + |pattern|] == s[i + 1..i + 1 + |pattern|];
        i + 1
  }

  /** The last position where pattern starts, or -1. */
  function FindLast(s: string, pattern: string): (i: int)
    ensures -1 <= i && (i >= 0 ==> i + |pattern| <= |s| && s[i..i + |pattern|] == pattern)
  {
    if s != "" && FindLast(s[1..], pattern) >= 0 then
      var i := FindLast(s[1..], pattern);
      assert s[1..][i..i + |pattern|] == s[i + 1..i + 1 + |pattern|];
      i + 1
    else if HasPrefix(s, pattern) then 0
    else -1
  }

  predicate Contains(s: string, pattern: string) {
    Find(s, pattern) >= 0
  }

  ghost predicate Occurs(pattern: string, s: string) {
    exists i | 0 <= i <= |s| :: pattern <= s[i..]
  }

  lemma {:induction false} ContainsExactly(s: string, pattern: string)
    ensures Contains(s, pattern) <==> Occurs(pattern, s)
  {
    assert s[0..] == s;
    if s != "" {
      ContainsExactly(s[1..], pattern);
      forall i | 1 <= i <= |s| ensures s[1..][i - 1..] == s[i..] {
      }
      if i :| 0 <= i <= |s[1..]| && pattern <= s[1..][i..] {
        assert s[1..][i..] == s[i + 1..];
      }
    }
  }

  predicate HasSuffix(s: string, suffix: string) {
    |suffix| <= |s| && s[|s| - |suffix|..] == suffix
  }

  /** Splits at every occurrence of a non-empty separator. */
  function SplitAt(s: string, separator: string): (pieces: seq<string>)
    requires separator != ""
    ensures pieces != []
    decreases |s|
  {
    var i := Find(s, separator);
    if i < 0 then [s] else [s[..i]] + SplitAt(s[i + |separator|..], separator)
  }

  /** The text before the first c, or all of it. */
  function Before(s: string, c: char): string {
    var i := Index(s, c);
    if i < 0 then s else s[..i]
  }
}
