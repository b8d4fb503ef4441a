/** Which lines open and close a fence, which commands are acceptable and how line ends
    are read (src/aiCommandProposal.ts), told on the characters. */
module CommandFences {
  import opened Text
  import opened CommandProposals

  // ----- lines -----

  function Copies(c: char, n: nat): string {
    seq(n, _ => c)
  }

  lemma {:induction false} RunOfCopies(c: char, n: nat, rest: string)
    requires rest == "" || rest[0] != c
    ensures RunOf(Copies(c, n) + rest, c) == n
  {
    if n == 0 {
      assert Copies(c, 0) + rest == rest;
    } else {
      assert (Copies(c, n) + rest)[1..] == Copies(c, n - 1) + rest;
      RunOfCopies(c, n - 1, rest);
    }
  }

  lemma RunSplits(s: string, c: char)
    ensures s == Copies(c, RunOf(s, c)) + s[RunOf(s, c)..]
  {
    hide RunOf;
    var n := RunOf(s, c);
    assert s[..n] == Copies(c, n);
    assert s == s[..n] + s[n..];
  }

  /** At most three spaces, `n` copies of `marker` and then `rest`, which does not go on
      with the marker. */
  ghost predicate Fenced(line: string, indent: nat, marker: char, n: nat, rest: string) {
    && line == Copies(' ', indent) + Copies(marker, n) + rest && indent <= 3
    && (marker == '`' || marker == '~') && n >= 3 && (rest == "" || rest[0] != marker)
  }

  lemma MarkerRunOf(line: string, indent: nat, marker: char, n: nat, rest: string)
    requires Fenced(line, indent, marker, n, rest)
    ensures MarkerRun(line) == Some((marker, n, rest))
  {
    var tail := Copies(marker, n) + rest;
    assert line == Copies(' ', indent) + tail && tail[0] == marker;
    RunOfCopies(' ', indent, tail);
    assert line[indent..] == tail;
    RunOfCopies(marker, n, rest);
    assert tail[n..] == rest;
  }

  lemma MarkerRunIs(line: string) returns (indent: nat)
    requires MarkerRun(line).Some?
    ensures Fenced(line, indent, MarkerRun(line).value.0, MarkerRun(line).value.1, MarkerRun(line).value.2)
  {
    indent := RunOf(line, ' ');
    RunSplits(line, ' ');
    var tail := line[indent..];
    RunSplits(tail, tail[0]);
    assert line == Copies(' ', indent) + Copies(tail[0], RunOf(tail, tail[0])) + tail[RunOf(tail, tail[0])..];
  }

  /** A line closes a fence if and only if it is at most three spaces, at least as many
      copies of the fence's own marker as the fence has (and three), and white space. */
  lemma ClosesExactly(line: string, fence: Fence)
    ensures Closes(line, fence) <==>
      exists indent: nat, n: nat, rest :: Fenced(line, indent, fence.marker, n, rest) && n >= fence.length && Blank(rest)
  {
    hide MarkerRun, Fenced, IsSpace;
    if Closes(line, fence) {
      var indent := MarkerRunIs(line);
      var (marker, n, rest) := MarkerRun(line).value;
      assert Fenced(line, indent, fence.marker, n, rest) && n >= fence.length && Blank(rest);
    }
    if indent: nat, n: nat, rest :| Fenced(line, indent, fence.marker, n, rest) && n >= fence.length && Blank(rest) {
      MarkerRunOf(line, indent, fence.marker, n, rest);
    }
  }

  // ----- the language -----

  /** Equal up to the case of ASCII letters, `b` in lower case. */
  ghost predicate LowerOf(b: string, a: string) {
    |a| == |b| && forall i :: 0 <= i < |a| ==> b[i] == if 'A' <= a[i] <= 'Z' then (a[i] as int + 32) as char else a[i]
  }

  lemma {:induction false} LowerExactly(a: string)
    ensures LowerOf(LowerAscii(a), a)
  {
    if a != "" {
      LowerExactly(a[1..]);
      var b := LowerAscii(a);
      assert b[1..] == LowerAscii(a[1..]);
      forall i | 0 <= i < |a|
        ensures b[i] == if 'A' <= a[i] <= 'Z' then (a[i] as int + 32) as char else a[i]
      {
        assert i > 0 ==> b[i] == b[1..][i - 1] && a[i] == a[1..][i - 1];
      }
    }
  }

  /** The info string names one of the ten languages, in any case and between white space. */
  ghost predicate Names(info: string, language: string) {
    && language in ["bash", "sh", "zsh", "fish", "powershell", "pwsh", "cmd", "bat", "shell", "console"]
    && exists t :: Trimmed(t, info) && LowerOf(language, t)
  }

  ghost predicate NamesIts(info: string, language: Option<string>) {
    match language
    case Some(l) => Names(info, l)
    case None => forall l :: !Names(info, l)
  }

  lemma LowerUnique(b: string, c: string, a: string)
    requires LowerOf(b, a) && LowerOf(c, a)
    ensures b == c
  {
  }

  lemma TenWords(w: string)
    ensures w in LANGUAGES
      <==> w in ["bash", "sh", "zsh", "fish", "powershell", "pwsh", "cmd", "bat", "shell", "console"]
  {
  }

  lemma LanguageExactly(info: string, language: string)
    ensures CommandLanguage(info) == Some(language) <==> Names(info, language)
  {
    hide Trim, LowerAscii, LowerOf, Trimmed;
    var t := Trim(info);
    TrimExactly(info);
    LowerExactly(t);
    TenWords(LowerAscii(t));
    if Names(info, language) {
      var u :| Trimmed(u, info) && LowerOf(language, u);
      TrimUnique(t, u, info);
      LowerUnique(language, LowerAscii(t), t);
    }
  }

  lemma TrimTwice(info: string)
    ensures Trim(Trim(info)) == Trim(info)
  {
    TrimExactly(Trim(info));
    var t := Trim(info);
    assert t == "" + t + "" && Blank("");
    assert Trimmed(t, t);
    TrimUnique(Trim(t), t, t);
  }

  /** A line opens a fence if and only if it is at most three spaces, a maximal run of at
      least three backticks or tildes, and an info string without a backtick; the fence has
      that run and the language that the info string names, if any. */
  lemma OpeningExactly(line: string, fence: Fence)
    ensures Opening(line) == Some(fence) <==>
      exists indent: nat, info :: Fenced(line, indent, fence.marker, fence.length, info) && '`' !in info
        && NamesIts(info, fence.language)
  {
    hide MarkerRun, Fenced, IsSpace, NamesIts, CommandLanguage, Trim;
    if Opening(line) == Some(fence) {
      var indent := MarkerRunIs(line);
      InfoNames(MarkerRun(line).value.2, fence.language);
    }
    if indent: nat, info :|
      Fenced(line, indent, fence.marker, fence.length, info) && '`' !in info && NamesIts(info, fence.language)
    {
      MarkerRunOf(line, indent, fence.marker, fence.length, info);
      InfoNames(info, fence.language);
    }
  }

  lemma InfoNames(info: string, language: Option<string>)
    ensures CommandLanguage(Trim(info)) == language <==> NamesIts(info, language)
  {
    hide IsSpace, Names, CommandLanguage, Trim;
    TrimTwice(info);
    LanguageOfTrim(info);
    forall l ensures CommandLanguage(info) == Some(l) <==> Names(info, l) {
      LanguageExactly(info, l);
    }
  }

  lemma LanguageOfTrim(info: string)
    requires Trim(Trim(info)) == Trim(info)
    ensures CommandLanguage(Trim(info)) == CommandLanguage(info)
  {
  }

  // ----- acceptable commands -----

  /** A C0 or C1 control other than tab, line feed and carriage return. */
  ghost predicate Invisible(c: char) {
    var code := c as int;
    0 <= code <= 8 || code == 0xb || code == 0xc || 0xe <= code <= 0x1f || 0x7f <= code <= 0x9f
  }

  /** A command is acceptable if and only if something in it is visible, no control or
      format character is in it but tab, line feed and carriage return, and it fits. */
  lemma AcceptableExactly(command: string)
    ensures Acceptable(command) <==>
      && (exists c :: c in command && !IsSpace(c))
      && (forall c :: c in command ==> !Invisible(c) && !IsFormat(c))
      && Bytes(command) <= 32 * 1024 - 1
  {
    TrimExactly(command);
    VisibleTrim(Trim(command), command);
    hide IsSpace, IsFormat, Bytes, Trim;
    forall c ensures Unsafe(c) <==> Invisible(c) || IsFormat(c) {
      UnsafeExactly(c);
    }
    hide Unsafe, Invisible;
  }

  lemma UnsafeExactly(c: char)
    ensures Unsafe(c) <==> Invisible(c) || IsFormat(c)
  {
  }

  // ----- line ends -----

  /** Both line ends, and nothing else, become line feeds. */
  lemma {:induction false} NormalizedExactly(s: string)
    ensures '\r' !in Normalized(s)
    ensures '\r' !in s ==> Normalized(s) == s
    decreases |s|
  {
    if s != "" {
      if s[0] != '\r' {
        NormalizedExactly(s[1..]);
        assert s == [s[0]] + s[1..];
      } else {
        NormalizedExactly(if |s| > 1 && s[1] == '\n' then s[2..] else s[1..]);
      }
    }
  }

  lemma {:induction false} NormalizedReturns(a: string, b: string)
    requires '\r' !in a
    ensures Normalized(a + ['\r', '\n'] + b) == a + ['\n'] + Normalized(b)
    ensures (b == "" || b[0] != '\n') ==> Normalized(a + ['\r'] + b) == a + ['\n'] + Normalized(b)
  {
    if a == "" {
      assert "" + ['\r', '\n'] + b == ['\r', '\n'] + b && (['\r', '\n'] + b)[2..] == b;
      assert "" + ['\r'] + b == ['\r'] + b && (['\r'] + b)[1..] == b;
    } else {
      NormalizedReturns(a[1..], b);
      assert (a + ['\r', '\n'] + b)[1..] == a[1..] + ['\r', '\n'] + b;
      assert (a + ['\r'] + b)[1..] == a[1..] + ['\r'] + b;
      assert a == [a[0]] + a[1..];
    }
  }

  /** Splitting into lines loses nothing. */
  lemma {:induction false} JoinOfLines(s: string)
    ensures JoinLines(Lines(s)) == s
  {
    if s != "" {
      var rest := Lines(s[1..]);
      JoinOfLines(s[1..]);
      assert s == [s[0]] + s[1..];
      if s[0] == '\n' {
        assert ([""] + rest)[1..] == rest;
      } else {
        JoinHead(s[0], rest);
      }
    }
  }

  lemma JoinHead(c: char, lines: seq<string>)
    requires lines != []
    ensures JoinLines([[c] + lines[0]] + lines[1..]) == [c] + JoinLines(lines)
  {
    assert ([[c] + lines[0]] + lines[1..])[1..] == lines[1..];
  }

  // ----- fingerprints -----

  lemma HashStep(hash: bv32, b: bv32, next: bv32, rest: seq<bv32>)
    requires Mixed(hash, b) == next
    ensures Fnv(hash, [b] + rest) == Fnv(next, rest)
  {
    assert ([b] + rest)[1..] == rest;
  }

  lemma HashEnd(hash: bv32)
    ensures Fnv(hash, []) == hash
  {
  }

  /** Values of the 32-bit FNV-1a hash published with the algorithm. */
  lemma FnvVectors()
    ensures Fnv(0x811c9dc5, []) == 0x811c9dc5
    ensures Fnv(0x811c9dc5, [97]) == 0xe40c292c
    ensures Fnv(0x811c9dc5, [102, 111, 111, 98, 97, 114]) == 0xbf9cf968
  {
    hide Fnv;
    HashEnd(0x811c9dc5);
    HashStep(0x811c9dc5, 97, 0xe40c292c, []);
    HashEnd(0xe40c292c);
    assert [97] + [] == [97 as bv32];
    var t6: seq<bv32> := [];
    var t5 := [114] + t6;
    var t4 := [97] + t5;
    var t3 := [98] + t4;
    var t2 := [111] + t3;
    var t1 := [111] + t2;
    var t0 := [102] + t1;
    HashStep(0x811c9dc5, 102, 0xe30c2799, t1);
    HashStep(0xe30c2799, 111, 0x6222e842, t2);
    HashStep(0x6222e842, 111, 0xa9f37ed7, t3);
    HashStep(0xa9f37ed7, 98, 0x3f5076ef, t4);
    HashStep(0x3f5076ef, 97, 0x39aaa18a, t5);
    HashStep(0x39aaa18a, 114, 0xbf9cf968, t6);
    HashEnd(0xbf9cf968);
    assert t0 == [102, 111, 111, 98, 97, 114];
  }

  /** The number that lower-case hexadecimal digits spell. */
  ghost function HexValue(s: string): int {
    if s == "" then 0
    else
      var c := s[|s| - 1];
      16 * HexValue(s[..|s| - 1]) + (if c <= '9' then c as int - '0' as int else c as int - 'a' as int + 10)
  }

  lemma {:induction false} HexExactly(n: nat, digits: nat)
    requires n < Power16(digits)
    ensures HexValue(Hex(n, digits)) == n
    ensures forall c :: c in Hex(n, digits) ==> '0' <= c <= '9' || 'a' <= c <= 'f'
  {
    if digits > 0 {
      HexExactly(n / 16, digits - 1);
      assert Hex(n, digits)[..digits - 1] == Hex(n / 16, digits - 1);
    }
  }

  ghost function Power16(digits: nat): nat {
    if digits == 0 then 1 else 16 * Power16(digits - 1)
  }
}
