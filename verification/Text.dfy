/** Byte strings (one char per byte) and the few operations of Go's `strings`,
    `strconv` and `sort` packages that the modelled code leans on. */
module Text {
  import opened Options

  /** `strings.IndexByte`. */
  function IndexOf(s: string, c: char): (i: int)
    ensures -1 <= i < |s|
    ensures i >= 0 ==> s[i] == c && c !in s[..i]
    ensures i < 0 <==> c !in s
  {
    if s == "" then -1
    else if s[0] == c then 0
    else
      var i := IndexOf(s[1..], c);
      assert s == [s[0]] + s[1..];
      if i < 0 then -1 else
        assert s[..i + 1] == [s[0]] + s[1..][..i];
        i + 1
  }

  lemma {:induction false} IndexOfAt(a: string, c: char, b: string)
    requires c !in a
    ensures IndexOf(a + [c] + b, c) == |a|
  {
    if a == "" {
      assert a + [c] + b == [c] + b;
    } else {
      IndexOfAt(a[1..], c, b);
      assert (a + [c] + b)[1..] == a[1..] + [c] + b;
      assert (a + [c] + b)[0] == a[0];
    }
  }

  /** The first separator tells the two sides apart. */
  lemma CutAt(a: string, b: string, c: char, x: string, y: string)
    requires c !in a && c !in b && a + [c] + x == b + [c] + y
    ensures a == b && x == y
  {
    IndexOfAt(a, c, x);
    IndexOfAt(b, c, y);
    var s := a + [c] + x;
    assert s[..|a|] == a && s[|a| + 1..] == x;
    assert s[..|b|] == b && s[|b| + 1..] == y;
  }

  /** The first `c` at or after `i`, as `i + strings.IndexByte(s[i:], c)`. */
  function IndexFrom(s: string, i: nat, c: char): (j: int)
    requires i <= |s|
    ensures j == -1 || i <= j < |s|
    ensures j >= 0 ==> s[j] == c && forall k | i <= k < j :: s[k] != c
    ensures j < 0 ==> forall k | i <= k < |s| :: s[k] != c
    decreases |s| - i
  {
    if i == |s| then -1
    else if s[i] == c then i
    else IndexFrom(s, i + 1, c)
  }

  predicate HasPrefix(s: string, p: string) {
    |p| <= |s| && s[..|p|] == p
  }

  lemma PrefixAt(s: string, p: string, i: nat)
    requires i < |p|
    ensures HasPrefix(s, p) ==> i < |s| && s[i] == p[i]
  {
    if HasPrefix(s, p) {
      assert s[..|p|][i] == s[i];
    }
  }

  predicate HasSuffix(s: string, p: string) {
    |p| <= |s| && s[|s| - |p|..] == p
  }

  ghost predicate StartsWith(s: string, t: string) {
    exists rest :: s == t + rest
  }

  ghost predicate EndsWith(s: string, t: string) {
    exists front :: s == front + t
  }

  lemma Ends(s: string, t: string)
    ensures StartsWith(s, t) <==> HasPrefix(s, t)
    ensures EndsWith(s, t) <==> HasSuffix(s, t)
  {
    if HasPrefix(s, t) { assert s == t + s[|t|..]; }
    if HasSuffix(s, t) { assert s == s[..|s| - |t|] + t; }
    if rest :| s == t + rest { assert s[..|t|] == t; }
    if front :| s == front + t { assert s[|s| - |t|..] == t; }
  }

  /** `strings.TrimSuffix`: at most one occurrence. */
  function TrimSuffix(s: string, p: string): string {
    if HasSuffix(s, p) then s[..|s| - |p|] else s
  }

  lemma TrimSuffixIs(s: string, p: string)
    ensures s == TrimSuffix(s, p) + if HasSuffix(s, p) then p else ""
  {
  }

  /** `strings.TrimPrefix`: at most one occurrence. */
  function TrimPrefix(s: string, p: string): string {
    if HasPrefix(s, p) then s[|p|..] else s
  }

  /** `strings.Split` by a one-byte separator. */
  function Split(s: string, c: char): (parts: seq<string>)
    ensures parts != []
  {
    if s == "" then [""]
    else
      var rest := Split(s[1..], c);
      if s[0] == c then [""] + rest else [[s[0]] + rest[0]] + rest[1..]
  }

  /** `strings.Join` by a one-byte separator. */
  function Join(parts: seq<string>, c: char): string {
    if parts == [] then ""
    else if |parts| == 1 then parts[0]
    else parts[0] + [c] + Join(parts[1..], c)
  }

  lemma {:induction false} SplitFree(s: string, c: char)
    ensures forall p | p in Split(s, c) :: c !in p
  {
    if s != "" {
      SplitFree(s[1..], c);
    }
  }

  lemma {:induction false} JoinSplit(s: string, c: char)
    ensures Join(Split(s, c), c) == s
  {
    if s != "" {
      JoinSplit(s[1..], c);
      var rest := Split(s[1..], c);
      if s[0] == c {
        assert ([""] + rest)[1..] == rest;
      } else {
        JoinPrefix([s[0]], rest, c);
        assert [s[0]] + s[1..] == s;
      }
    }
  }

  lemma {:induction false} SplitAt(a: string, c: char, b: string)
    ensures Split(a + [c] + b, c) == Split(a, c) + Split(b, c)
  {
    if a == "" {
      assert ([c] + b)[1..] == b && a + [c] + b == [c] + b;
    } else {
      SplitAt(a[1..], c, b);
      assert (a + [c] + b)[1..] == a[1..] + [c] + b;
      SplitCons(a, c, Split(b, c));
    }
  }

  lemma SplitCons(a: string, c: char, more: seq<string>)
    requires a != ""
    ensures var rest := Split(a[1..], c) + more;
            Split(a, c) + more == if a[0] == c then [""] + rest else [[a[0]] + rest[0]] + rest[1..]
  {
    var rest := Split(a[1..], c);
    assert (rest + more)[1..] == rest[1..] + more;
  }

  lemma {:induction false} SplitNothing(s: string, c: char)
    requires c !in s
    ensures Split(s, c) == [s]
  {
    if s != "" {
      SplitNothing(s[1..], c);
      assert [s[0]] + s[1..] == s;
    }
  }

  lemma {:induction false} SplitJoin(parts: seq<string>, c: char)
    requires parts != []
    requires forall p | p in parts :: c !in p
    ensures Split(Join(parts, c), c) == parts
  {
    SplitNothing(parts[0], c);
    if |parts| > 1 {
      SplitAt(parts[0], c, Join(parts[1..], c));
      SplitJoin(parts[1..], c);
      assert parts == [parts[0]] + parts[1..];
    }
  }

  /** Joining parts that are free of the separator loses nothing. */
  lemma JoinInjective(a: seq<string>, b: seq<string>, c: char)
    requires a != [] && b != []
    requires forall p | p in a :: c !in p
    requires forall p | p in b :: c !in p
    requires Join(a, c) == Join(b, c)
    ensures a == b
  {
    SplitJoin(a, c);
    SplitJoin(b, c);
  }

  lemma {:induction false} JoinConcat(a: seq<string>, b: seq<string>, c: char)
    requires a != [] && b != []
    ensures Join(a + b, c) == Join(a, c) + [c] + Join(b, c)
  {
    if |a| == 1 {
      assert (a + b)[1..] == b;
    } else {
      JoinConcat(a[1..], b, c);
      assert (a + b)[1..] == a[1..] + b;
      assert a[0] + [c] + (Join(a[1..], c) + [c] + Join(b, c)) == (a[0] + [c] + Join(a[1..], c)) + [c] + Join(b, c);
    }
  }

  lemma JoinPrefix(p: string, parts: seq<string>, c: char)
    requires parts != []
    ensures Join([p + parts[0]] + parts[1..], c) == p + Join(parts, c)
  {
    var grown := [p + parts[0]] + parts[1..];
    assert grown[1..] == parts[1..];
    if |parts| > 1 {
      assert (p + parts[0]) + [c] + Join(parts[1..], c) == p + (parts[0] + [c] + Join(parts[1..], c));
    }
  }

  // ------------------------------------------------------ trimming, cutting

  predicate IsSpace(c: char) {
    c == ' ' || '\t' <= c <= '\r'
  }

  /** The multi-byte white space of Unicode, in UTF-8. */
  predicate IsWideSpace(s: string) {
    if |s| == 2 then s[0] == '\U{C2}' && (s[1] == '\U{85}' || s[1] == '\U{A0}')
    else if |s| == 3 then
      || (s[0] == '\U{E1}' && s[1] == '\U{9A}' && s[2] == '\U{80}')
      || (s[0] == '\U{E2}' && s[1] == '\U{80}' && ('\U{80}' <= s[2] <= '\U{8A}' || s[2] in "\U{A8}\U{A9}\U{AF}"))
      || (s[0] == '\U{E2}' && s[1] == '\U{81}' && s[2] == '\U{9F}')
      || (s[0] == '\U{E3}' && s[1] == '\U{80}' && s[2] == '\U{80}')
    else false
  }

  /** The width of the white space `s` starts with, or 0. */
  function HeadSpace(s: string): (n: nat)
    ensures n <= |s|
  {
    if |s| >= 1 && IsSpace(s[0]) then 1
    else if |s| >= 2 && IsWideSpace(s[..2]) then 2
    else if |s| >= 3 && IsWideSpace(s[..3]) then 3
    else 0
  }

  function TailSpace(s: string): (n: nat)
    ensures n <= |s|
  {
    if |s| >= 1 && IsSpace(s[|s| - 1]) then 1
    else if |s| >= 2 && IsWideSpace(s[|s| - 2..]) then 2
    else if |s| >= 3 && IsWideSpace(s[|s| - 3..]) then 3
    else 0
  }

  /** `strings.TrimSpace` */
  function TrimSpace(s: string): string
    decreases |s|
  {
    if HeadSpace(s) > 0 then TrimSpace(s[HeadSpace(s)..])
    else if TailSpace(s) > 0 then TrimSpace(s[..|s| - TailSpace(s)])
    else s
  }

  // ---- what trimming leaves

  const BLANKS: string := " \t\n\U{0B}\U{0C}\r"

  predicate AllBlank(s: string) {
    forall c | c in s :: c in BLANKS
  }

  lemma BlankIsSpace(c: char)
    ensures IsSpace(c) <==> c in BLANKS
  {
    assert BLANKS[0] == ' ' && BLANKS[1] == '\t' && BLANKS[2] == '\n' && BLANKS[3] == '\U{0B}';
    assert BLANKS[4] == '\U{0C}' && BLANKS[5] == '\r';
  }

  /** A text that starts and ends in a plain ASCII character, no blank. */
  predicate Trimmed(s: string) {
    s != "" ==> s[0] < '\U{80}' && s[0] !in BLANKS && s[|s| - 1] < '\U{80}' && s[|s| - 1] !in BLANKS
  }

  lemma {:induction false} TrimBlank(s: string)
    requires AllBlank(s)
    ensures TrimSpace(s) == ""
    decreases |s|
  {
    if s != "" {
      BlankIsSpace(s[0]);
      assert s[0] in s;
      TrimBlank(s[1..]);
    }
  }

  lemma {:induction false} TrimTail(m: string, trail: string)
    requires m != "" && Trimmed(m) && AllBlank(trail)
    ensures TrimSpace(m + trail) == m
    decreases |trail|
  {
    var s := m + trail;
    hide HeadSpace, TailSpace, IsSpace;
    HeadPlain(s);
    if trail == "" {
      assert s == m;
      TailPlain(s);
    } else {
      var n := |trail| - 1;
      assert trail[n] in trail && s[|s| - 1] == trail[n];
      TailBlank(s);
      assert s[..|s| - 1] == m + trail[..n];
      TrimTail(m, trail[..n]);
    }
  }

  lemma WideEnds(s: string)
    ensures IsWideSpace(s) ==> |s| >= 2 && s[0] >= '\U{80}' && s[|s| - 1] >= '\U{80}'
  {
  }

  lemma HeadPlain(s: string)
    requires s != "" && s[0] < '\U{80}' && s[0] !in BLANKS
    ensures HeadSpace(s) == 0
  {
    BlankIsSpace(s[0]);
    hide IsWideSpace, BLANKS, IsSpace;
    var two, three := if |s| >= 2 then s[..2] else "", if |s| >= 3 then s[..3] else "";
    WideEnds(two);
    WideEnds(three);
    assert |s| >= 2 ==> two[0] == s[0];
    assert |s| >= 3 ==> three[0] == s[0];
  }

  lemma TailPlain(s: string)
    requires s != "" && s[|s| - 1] < '\U{80}' && s[|s| - 1] !in BLANKS
    ensures TailSpace(s) == 0
  {
    BlankIsSpace(s[|s| - 1]);
    hide IsWideSpace, BLANKS, IsSpace;
    var two, three := if |s| >= 2 then s[|s| - 2..] else "", if |s| >= 3 then s[|s| - 3..] else "";
    WideEnds(two);
    WideEnds(three);
    assert |s| >= 2 ==> two[1] == s[|s| - 1];
    assert |s| >= 3 ==> three[2] == s[|s| - 1];
  }

  lemma TailBlank(s: string)
    requires s != "" && s[|s| - 1] in BLANKS
    ensures TailSpace(s) == 1
  {
    BlankIsSpace(s[|s| - 1]);
  }

  /** Blanks at either end go, and nothing else. */
  lemma {:induction false} TrimSpaceIs(lead: string, m: string, trail: string)
    requires AllBlank(lead) && Trimmed(m) && AllBlank(trail)
    ensures TrimSpace(lead + m + trail) == m
    decreases |lead|
  {
    var s := lead + m + trail;
    if m == "" {
      assert AllBlank(s);
      TrimBlank(s);
    } else if lead == "" {
      assert s == m + trail;
      TrimTail(m, trail);
    } else {
      BlankIsSpace(lead[0]);
      assert lead[0] in lead && s[0] == lead[0];
      assert s[1..] == lead[1..] + m + trail;
      TrimSpaceIs(lead[1..], m, trail);
    }
  }

  /** The bytes of a character beyond ASCII, in UTF-8. */
  function Utf8(code: int): string
    requires 0x80 <= code < 0x10000
  {
    if code < 0x800 then [(0xC0 + code / 64) as char, (0x80 + code % 64) as char]
    else [(0xE0 + code / 4096) as char, (0x80 + code / 64 % 64) as char, (0x80 + code % 64) as char]
  }

  /** The white space of Unicode beyond ASCII. */
  predicate IsWideCode(code: int) {
    || code == 0x85 || code == 0xA0 || code == 0x1680 || 0x2000 <= code <= 0x200A
    || code == 0x2028 || code == 0x2029 || code == 0x202F || code == 0x205F || code == 0x3000
  }

  lemma WideSpaceIs(s: string)
    ensures IsWideSpace(s) <==> exists code :: IsWideCode(code) && s == Utf8(code)
  {
    if IsWideSpace(s) {
      var code := if |s| == 2 then (s[0] as int - 0xC0) * 64 + (s[1] as int - 0x80)
                  else (s[0] as int - 0xE0) * 4096 + (s[1] as int - 0x80) * 64 + (s[2] as int - 0x80);
      WideBack(s, code);
    }
    forall code | IsWideCode(code) && s == Utf8(code) ensures IsWideSpace(s) {
    }
  }

  lemma WideBack(s: string, code: int)
    requires IsWideSpace(s)
    requires code == if |s| == 2 then (s[0] as int - 0xC0) * 64 + (s[1] as int - 0x80)
                     else (s[0] as int - 0xE0) * 4096 + (s[1] as int - 0x80) * 64 + (s[2] as int - 0x80)
    ensures IsWideCode(code) && s == Utf8(code)
  {
  }

  /** `strings.ToLower`, on ASCII letters. */
  function Lower(s: string): (r: string)
    ensures |r| == |s|
  {
    if s == "" then ""
    else [if 'A' <= s[0] <= 'Z' then s[0] - 'A' + 'a' else s[0]] + Lower(s[1..])
  }

  /** `strings.Cut`: what comes before the first `c`, and what after it. */
  function Before(s: string, c: char): string {
    var i := IndexOf(s, c);
    if i < 0 then s else s[..i]
  }

  function After(s: string, c: char): string {
    var i := IndexOf(s, c);
    if i < 0 then "" else s[i + 1..]
  }

  const UPPER: string := "ABCDEFGHIJKLMNOPQRSTUVWXYZ"
  const LOWER: string := "abcdefghijklmnopqrstuvwxyz"

  /** Letter by letter. */
  lemma {:induction false} LowerIs(s: string, i: nat)
    requires i < |s|
    ensures |Lower(s)| == |s|
    ensures s[i] !in UPPER ==> Lower(s)[i] == s[i]
    ensures forall k | 0 <= k < 26 && s[i] == UPPER[k] :: Lower(s)[i] == LOWER[k]
  {
    Alphabet(s[i]);
    if i > 0 {
      LowerIs(s[1..], i - 1);
    } else if |s| > 1 {
      LowerIs(s[1..], 0);
    }
  }

  lemma Alphabet(c: char)
    ensures c in UPPER <==> 'A' <= c <= 'Z'
    ensures forall k | 0 <= k < 26 && c == UPPER[k] :: LOWER[k] == c - 'A' + 'a'
  {
    LettersInOrder();
    hide UPPER, LOWER;
    if 'A' <= c <= 'Z' {
      assert UPPER[c as int - 65] == c;
    }
  }

  lemma LettersInOrder()
    ensures |UPPER| == |LOWER| == 26
    ensures forall k | 0 <= k < 26 :: UPPER[k] as int == 65 + k && LOWER[k] as int == 97 + k
  {
  }

  /** Before the first separator, and after it. */
  lemma CutIs(a: string, c: char, b: string)
    requires c !in a
    ensures Before(a + [c] + b, c) == a && After(a + [c] + b, c) == b
    ensures Before(a, c) == a && After(a, c) == ""
  {
    IndexOfAt(a, c, b);
    var s := a + [c] + b;
    assert s[..|a|] == a && s[|a| + 1..] == b;
  }

  // ---------------------------------------------------------------- numbers

  const DIGITS: string := "0123456789"

  predicate IsDigit(c: char) { '0' <= c <= '9' }

  /** `strconv.Itoa` on a natural number. */
  function Itoa(n: nat): (s: string)
    ensures s != "" && forall c | c in s :: IsDigit(c)
  {
    if n < 10 then [DIGITS[n]] else Itoa(n / 10) + [DIGITS[n % 10]]
  }

  function DigitValue(c: char): nat
    requires IsDigit(c)
  {
    c as int - '0' as int
  }

  /** The value of a string of decimal digits. */
  function DigitsValue(s: string): nat
    requires forall c | c in s :: IsDigit(c)
  {
    if s == "" then 0
    else
      assert IsDigit(s[|s| - 1]);
      10 * DigitsValue(s[..|s| - 1]) + DigitValue(s[|s| - 1])
  }

  lemma {:induction false} DigitsValueOfItoa(n: nat)
    ensures DigitsValue(Itoa(n)) == n
  {
    if n < 10 {
      assert DigitsValue(Itoa(n)[..0]) == 0;
    } else {
      DigitsValueOfItoa(n / 10);
      var s := Itoa(n);
      assert s[..|s| - 1] == Itoa(n / 10);
    }
  }

  lemma ItoaInjective(m: nat, n: nat)
    requires Itoa(m) == Itoa(n)
    ensures m == n
  {
    DigitsValueOfItoa(m);
    DigitsValueOfItoa(n);
  }

  const INT64: int := 0x8000_0000_0000_0000

  type Int64 = n: int | -INT64 <= n < INT64

  /** `strconv.Atoi`: a sign, then digits, within 64 bits. */
  function Atoi(s: string): Option<Int64> {
    var digits := if s != "" && (s[0] == '+' || s[0] == '-') then s[1..] else s;
    if digits == "" || exists c :: c in digits && !IsDigit(c) then None
    else
      var v: int := DigitsValue(digits);
      var n := if s[0] == '-' then -v else v;
      if -INT64 <= n < INT64 then Some(n) else None
  }

  lemma AtoiOfDigits(d: string)
    requires d != "" && forall c | c in d :: IsDigit(c)
    ensures var v: int := DigitsValue(d);
            && Atoi(d) == Atoi("+" + d) == (if v < 0x8000_0000_0000_0000 then Some(v) else None)
            && Atoi("-" + d) == if v <= 0x8000_0000_0000_0000 then Some(-v) else None
  {
    hide DigitsValue;
    assert d[0] in d;
    assert ("+" + d)[1..] == d && ("-" + d)[1..] == d;
  }

  /** A number within 64 bits is read back, with or without its sign; no other is. */
  lemma AtoiOfItoa(n: nat)
    ensures var v: int := n;
            && Atoi(Itoa(n)) == Atoi("+" + Itoa(n)) == (if v < 0x8000_0000_0000_0000 then Some(v) else None)
            && Atoi("-" + Itoa(n)) == if v <= 0x8000_0000_0000_0000 then Some(-v) else None
  {
    hide DigitsValue, Itoa, Atoi;
    DigitsValueOfItoa(n);
    AtoiOfDigits(Itoa(n));
  }

  /** Only digits, after a sign, make a number. */
  lemma AtoiReadsDigits(s: string)
    requires Atoi(s).Some?
    ensures s != "" && s != "+" && s != "-" && (s[0] == '+' || s[0] == '-' || s[0] in "0123456789")
    ensures forall c | c in s[1..] :: c in "0123456789"
  {
    forall c | IsDigit(c) ensures c in "0123456789" {
      assert "0123456789"[c as int - '0' as int] == c;
    }
    var digits := if s[0] == '+' || s[0] == '-' then s[1..] else s;
    assert forall c | c in digits :: IsDigit(c);
    forall c | c in s[1..] ensures c in digits {
      assert s == [s[0]] + s[1..];
    }
  }

  // ---------------------------------------------------------------- ordering

  /** Go's `<=` on strings: byte-wise lexicographic. */
  predicate Leq(a: string, b: string) {
    a == "" || (b != "" && (a[0] < b[0] || (a[0] == b[0] && Leq(a[1..], b[1..]))))
  }

  lemma {:induction false} LeqTotal(a: string, b: string)
    ensures Leq(a, b) || Leq(b, a)
  {
    if a != "" && b != "" && a[0] == b[0] {
      LeqTotal(a[1..], b[1..]);
    }
  }

  lemma {:induction false} LeqAntisymmetric(a: string, b: string)
    requires Leq(a, b) && Leq(b, a)
    ensures a == b
  {
    if a != "" && b != "" {
      LeqAntisymmetric(a[1..], b[1..]);
      assert a == [a[0]] + a[1..] && b == [b[0]] + b[1..];
    }
  }

  lemma {:induction false} LeqTransitive(a: string, b: string, c: string)
    requires Leq(a, b) && Leq(b, c)
    ensures Leq(a, c)
  {
    if a != "" && a[0] == b[0] && b[0] == c[0] {
      LeqTransitive(a[1..], b[1..], c[1..]);
    }
  }

  predicate IsSorted(xs: seq<string>) {
    forall i, j | 0 <= i < j < |xs| :: Leq(xs[i], xs[j])
  }

  function Insert(x: string, xs: seq<string>): (r: seq<string>)
    ensures multiset(r) == multiset(xs) + multiset{x}
  {
    if xs == [] then [x]
    else if Leq(x, xs[0]) then [x] + xs
    else
      assert xs == [xs[0]] + xs[1..];
      [xs[0]] + Insert(x, xs[1..])
  }

  /** `sort.Strings`. */
  function Sort(xs: seq<string>): (r: seq<string>)
    ensures multiset(r) == multiset(xs)
  {
    if xs == [] then []
    else
      assert xs == [xs[0]] + xs[1..];
      Insert(xs[0], Sort(xs[1..]))
  }

  lemma {:induction false} InsertSorted(x: string, xs: seq<string>)
    requires IsSorted(xs)
    ensures IsSorted(Insert(x, xs))
  {
    if xs == [] {
    } else if Leq(x, xs[0]) {
      forall j | 0 <= j < |xs| ensures Leq(x, xs[j]) {
        if j > 0 { LeqTransitive(x, xs[0], xs[j]); }
      }
    } else {
      LeqTotal(x, xs[0]);
      InsertSorted(x, xs[1..]);
      var r := Insert(x, xs[1..]);
      forall j | 0 <= j < |r| ensures Leq(xs[0], r[j]) {
        assert r[j] in multiset(r);
        if r[j] != x {
          assert r[j] in xs[1..];
        }
      }
    }
  }

  lemma {:induction false} SortSorted(xs: seq<string>)
    ensures IsSorted(Sort(xs))
  {
    if xs != [] {
      SortSorted(xs[1..]);
      InsertSorted(xs[0], Sort(xs[1..]));
    }
  }

  lemma SortedHead(a: seq<string>, b: seq<string>)
    requires IsSorted(a) && IsSorted(b) && a != [] && b != []
    requires a[0] in b && b[0] in a
    ensures a[0] == b[0]
  {
    var i :| 0 <= i < |b| && b[i] == a[0];
    var j :| 0 <= j < |a| && a[j] == b[0];
    if i > 0 && j > 0 {
      assert Leq(b[0], b[i]) && Leq(a[0], a[j]);
      LeqAntisymmetric(a[0], b[0]);
    }
  }

  lemma MultisetTail(a: seq<string>)
    requires a != []
    ensures multiset(a[1..]) == multiset(a) - multiset{a[0]}
  {
    assert a == [a[0]] + a[1..];
  }

  /** A sorted arrangement is unique, so sorting forgets the original order. */
  lemma {:induction false} SortedUnique(a: seq<string>, b: seq<string>)
    requires IsSorted(a) && IsSorted(b) && multiset(a) == multiset(b)
    ensures a == b
  {
    hide Leq;
    if a == [] || b == [] {
      assert |multiset(a)| == |a| && |multiset(b)| == |b|;
    } else {
      assert a[0] in multiset(a) && b[0] in multiset(b);
      SortedHead(a, b);
      MultisetTail(a);
      MultisetTail(b);
      SortedUnique(a[1..], b[1..]);
      assert a == [a[0]] + a[1..] && b == [b[0]] + b[1..];
    }
  }

  lemma SortForgetsOrder(a: seq<string>, b: seq<string>)
    ensures Sort(a) == Sort(b) <==> multiset(a) == multiset(b)
  {
    if multiset(a) == multiset(b) {
      SortSorted(a);
      SortSorted(b);
      SortedUnique(Sort(a), Sort(b));
    }
  }

  predicate StrictlySorted(xs: seq<string>) {
    forall i, j | 0 <= i < j < |xs| :: Leq(xs[i], xs[j]) && xs[i] != xs[j]
  }

  lemma {:induction false} LeastExists(keys: set<string>)
    requires keys != {}
    ensures exists x :: x in keys && forall y | y in keys :: Leq(x, y)
    decreases |keys|
  {
    hide Leq;
    var k :| k in keys;
    LeqTotal(k, k);
    var rest := keys - {k};
    if rest == {} {
      assert keys == {k};
      assert k in keys && forall y | y in keys :: Leq(k, y);
    } else {
      LeastExists(rest);
      var m :| m in rest && forall y | y in rest :: Leq(m, y);
      LeqTotal(k, m);
      if Leq(k, m) {
        forall y | y in keys ensures Leq(k, y) {
          if y != k { LeqTransitive(k, m, y); }
        }
      } else {
        assert m in keys && forall y | y in keys :: Leq(m, y);
      }
    }
  }

  function Least(keys: set<string>): (x: string)
    requires keys != {}
    ensures x in keys && forall y | y in keys :: Leq(x, y)
  {
    LeastExists(keys);
    assert forall a, b | Leq(a, b) && Leq(b, a) :: a == b by {
      forall a, b | Leq(a, b) && Leq(b, a) ensures a == b { LeqAntisymmetric(a, b); }
    }
    var x :| x in keys && forall y | y in keys :: Leq(x, y);
    x
  }

  /** `slices.Sorted(maps.Keys(m))`. */
  function SortedKeys(keys: set<string>): (r: seq<string>)
    ensures |r| == |keys|
    ensures forall k :: k in r <==> k in keys
    ensures StrictlySorted(r)
    decreases |keys|
  {
    if keys == {} then []
    else
      var x := Least(keys);
      var rest := SortedKeys(keys - {x});
      assert StrictlySorted([x] + rest) by {
        assert forall y | y in rest :: Leq(x, y) && x != y;
      }
      [x] + rest
  }
}
