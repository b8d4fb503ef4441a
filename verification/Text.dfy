/** Strings as sequences of Unicode scalar values: the byte counts, character
    classes, trimming and number rendering the renderer modules rely on. */
module Text {

  datatype Option<+T> = None | Some(value: T)

  /** Bytes one scalar value takes in UTF-8 (section 3 of RFC 3629). */
  function CharBytes(c: char): (n: nat)
    ensures 1 <= n <= 4
  {
    var code := c as int;
    if code < 0x80 then 1 else if code < 0x800 then 2 else if code < 0x10000 then 3 else 4
  }

  /** `new TextEncoder().encode(s).byteLength` */
  function Bytes(s: string): (n: nat)
    ensures |s| <= n
  {
    if s == [] then 0 else CharBytes(s[0]) + Bytes(s[1..])
  }

  lemma {:induction false} BytesConcat(a: string, b: string)
    ensures Bytes(a + b) == Bytes(a) + Bytes(b)
  {
    if a == [] {
      assert a + b == b;
    } else {
      BytesConcat(a[1..], b);
      assert (a + b)[1..] == a[1..] + b;
    }
  }

  /** General category Cc. */
  predicate IsControl(c: char) {
    var code := c as int;
    code < 0x20 || 0x7f <= code < 0xa0
  }

  /** General category Cf. */
  predicate IsFormat(c: char) {
    var code := c as int;
    || code == 0xad || 0x600 <= code <= 0x605 || code == 0x61c || code == 0x6dd || code == 0x70f
    || 0x890 <= code <= 0x891 || code == 0x8e2 || code == 0x180e || 0x200b <= code <= 0x200f
    || 0x202a <= code <= 0x202e || 0x2060 <= code <= 0x2064 || 0x2066 <= code <= 0x206f
    || code == 0xfeff || 0xfff9 <= code <= 0xfffb || code == 0x110bd || code == 0x110cd
    || 0x13430 <= code <= 0x1343f || 0x1bca0 <= code <= 0x1bca3 || 0x1d173 <= code <= 0x1d17a
    || code == 0xe0001 || 0xe0020 <= code <= 0xe007f
  }

  /** The characters `\s` matches and `trim` removes. */
  predicate IsSpace(c: char) {
    var code := c as int;
    || 0x9 <= code <= 0xd || code == 0x20 || code == 0xa0 || code == 0x1680
    || 0x2000 <= code <= 0x200a || code == 0x2028 || code == 0x2029 || code == 0x202f
    || code == 0x205f || code == 0x3000 || code == 0xfeff
  }

  function TrimStart(s: string): (r: string)
    ensures r == [] || !IsSpace(r[0])
    ensures |r| <= |s| && r == s[|s| - |r|..]
  {
    if s != [] && IsSpace(s[0]) then TrimStart(s[1..]) else s
  }

  function TrimEnd(s: string): (r: string)
    ensures r == [] || !IsSpace(r[|r| - 1])
    ensures r <= s
  {
    if s != [] && IsSpace(s[|s| - 1]) then TrimEnd(s[..|s| - 1]) else s
  }

  function Trim(s: string): (r: string)
    ensures r != [] ==> !IsSpace(r[0]) && !IsSpace(r[|r| - 1])
    ensures forall c :: c in r ==> c in s
  {
    TrimEnd(TrimStart(s))
  }

  /** Only white space. */
  ghost predicate Blank(s: string) {
    forall c :: c in s ==> IsSpace(c)
  }

  /** `t` is `s` without the white space around it. */
  ghost predicate Trimmed(t: string, s: string) {
    && (exists a, b :: s == a + t + b && Blank(a) && Blank(b))
    && (t != "" ==> !IsSpace(t[0]) && !IsSpace(t[|t| - 1]))
  }

  lemma {:induction false} TrimStartSkips(s: string, i: nat)
    requires i < |s| - |TrimStart(s)|
    ensures IsSpace(s[i])
  {
    hide IsSpace;
    if i > 0 {
      TrimStartSkips(s[1..], i - 1);
    }
  }

  lemma {:induction false} TrimEndSkips(s: string, i: nat)
    requires |TrimEnd(s)| <= i < |s|
    ensures IsSpace(s[i])
  {
    hide IsSpace;
    if i < |s| - 1 {
      TrimEndSkips(s[..|s| - 1], i);
    }
  }

  lemma TrimStartBlank(s: string) returns (a: string)
    ensures s == a + TrimStart(s) && Blank(a)
  {
    hide IsSpace, TrimStart;
    a := s[..|s| - |TrimStart(s)|];
    forall c | c in a ensures IsSpace(c) {
      var i :| 0 <= i < |a| && a[i] == c;
      TrimStartSkips(s, i);
    }
  }

  lemma TrimEndBlank(s: string) returns (b: string)
    ensures s == TrimEnd(s) + b && Blank(b)
  {
    hide IsSpace, TrimEnd;
    var n := |TrimEnd(s)|;
    b := s[n..];
    forall c | c in b ensures IsSpace(c) {
      var i :| 0 <= i < |b| && b[i] == c;
      TrimEndSkips(s, n + i);
    }
  }

  lemma TrimExactly(s: string)
    ensures Trimmed(Trim(s), s)
  {
    hide IsSpace;
    var a := TrimStartBlank(s);
    var b := TrimEndBlank(TrimStart(s));
    hide TrimStart, TrimEnd, Blank;
    assert s == a + Trim(s) + b;
  }

  lemma SameStart(a: string, x: string, c: string, y: string)
    requires a + x == c + y && Blank(a) && Blank(c)
    requires x != "" && !IsSpace(x[0]) && y != "" && !IsSpace(y[0])
    ensures a == c && x == y
  {
    hide IsSpace;
    var s := a + x;
    assert s[|a|] == x[0] && s[|c|] == y[0];
    assert forall i :: 0 <= i < |a| ==> s[i] == a[i] && IsSpace(s[i]);
    assert forall i :: 0 <= i < |c| ==> s[i] == c[i] && IsSpace(s[i]);
    assert a == s[..|a|] && c == s[..|c|];
  }

  lemma SameEnd(x: string, b: string, y: string, d: string)
    requires x + b == y + d && Blank(b) && Blank(d)
    requires x != "" && !IsSpace(x[|x| - 1]) && y != "" && !IsSpace(y[|y| - 1])
    ensures x == y
  {
    hide IsSpace;
    var s := x + b;
    assert s[|x| - 1] == x[|x| - 1] && s[|y| - 1] == y[|y| - 1];
    assert forall i :: |x| <= i < |s| ==> s[i] == b[i - |x|] && IsSpace(s[i]);
    assert forall i :: |y| <= i < |s| ==> s[i] == d[i - |y|] && IsSpace(s[i]);
    assert x == s[..|x|] && y == s[..|y|];
  }

  /** There is one way to trim. */
  lemma TrimUnique(t: string, u: string, s: string)
    requires Trimmed(t, s) && Trimmed(u, s)
    ensures t == u
  {
    hide IsSpace, Blank;
    VisibleTrim(t, s);
    VisibleTrim(u, s);
    if t != "" && u != "" {
      var a, b :| s == a + t + b && Blank(a) && Blank(b);
      var c, d :| s == c + u + d && Blank(c) && Blank(d);
      hide Trimmed;
      SameMiddle(a, t, b, c, u, d);
    }
  }

  lemma SameMiddle(a: string, t: string, b: string, c: string, u: string, d: string)
    requires a + t + b == c + u + d && Blank(a) && Blank(b) && Blank(c) && Blank(d)
    requires t != "" && !IsSpace(t[0]) && !IsSpace(t[|t| - 1]) && u != "" && !IsSpace(u[0]) && !IsSpace(u[|u| - 1])
    ensures t == u
  {
    hide IsSpace, Blank;
    assert a + t + b == a + (t + b) && c + u + d == c + (u + d);
    SameStart(a, t + b, c, u + d);
    SameEnd(t, b, u, d);
  }

  lemma VisibleTrim(t: string, s: string)
    requires Trimmed(t, s)
    ensures t != "" <==> exists c :: c in s && !IsSpace(c)
  {
    hide IsSpace;
    var a, b :| s == a + t + b && Blank(a) && Blank(b);
    if t != "" {
      assert s[|a|] == t[0] && t[0] in s;
    } else {
      forall c | c in s ensures IsSpace(c) {
        assert c in a || c in b;
      }
    }
  }

  /** `String(n)` for a non-negative integer. */
  function Decimal(n: nat): (s: string)
    ensures s != []
    ensures forall i :: 0 <= i < |s| ==> '0' <= s[i] <= '9'
  {
    if n < 10 then [Digit(n)] else Decimal(n / 10) + [Digit(n % 10)]
  }

  function Digit(n: nat): (c: char)
    requires n < 10
    ensures '0' <= c <= '9'
  {
    ('0' as int + n) as char
  }

  /** The number a digit string spells. */
  function DecimalValue(s: string): (n: nat)
    requires forall i :: 0 <= i < |s| ==> '0' <= s[i] <= '9'
  {
    if s == [] then 0 else 10 * DecimalValue(s[..|s| - 1]) + (s[|s| - 1] as int - '0' as int)
  }

  lemma {:induction false} DecimalRoundTrip(n: nat)
    ensures DecimalValue(Decimal(n)) == n
  {
    if n >= 10 {
      DecimalRoundTrip(n / 10);
      var s := Decimal(n);
      assert s[..|s| - 1] == Decimal(n / 10);
    }
  }

  lemma DecimalInjective(m: nat, n: nat)
    requires Decimal(m) == Decimal(n)
    ensures m == n
  {
    DecimalRoundTrip(m);
    DecimalRoundTrip(n);
  }

  /** A separator that neither left part contains splits a string in one way. */
  lemma SplitAtFirst(a: string, b: string, a': string, b': string, sep: char)
    requires sep !in a && sep !in a'
    requires a + [sep] + b == a' + [sep] + b'
    ensures a == a' && b == b'
  {
    var s := a + [sep] + b;
    assert s[|a|] == sep && s[|a'|] == sep;
    assert a == s[..|a|] && a' == s[..|a'|];
    assert b == s[|a| + 1..] && b' == s[|a'| + 1..];
  }

  /** A separator that neither right part contains splits a string in one way. */
  lemma SplitAtLast(a: string, b: string, a': string, b': string, sep: char)
    requires sep !in b && sep !in b'
    requires a + [sep] + b == a' + [sep] + b'
    ensures a == a' && b == b'
  {
    var s := a + [sep] + b;
    assert s[|a|] == sep && s[|a'|] == sep;
    assert a == s[..|a|] && a' == s[..|a'|];
    assert b == s[|a| + 1..] && b' == s[|a'| + 1..];
  }
}
