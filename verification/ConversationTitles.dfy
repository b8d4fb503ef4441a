/** The title that `deriveAiConversationTitle` (src/aiConversationState.ts) gives to a
    normalised message, told by the words of the message. */
module ConversationTitles {
  import opened Text
  import opened ConversationKeys

  /** White space and the markup characters separate words. */
  ghost predicate Separates(c: char) {
    IsSpace(c) || c == '<' || c == '>' || c == '&'
  }

  /** Other control and format characters vanish. */
  ghost predicate Vanishes(c: char) {
    !Separates(c) && (IsControl(c) || IsFormat(c))
  }

  /** What stands between the separators, empty pieces included. */
  ghost function Pieces(s: string): (r: seq<string>)
    ensures r != []
  {
    if s == "" then [""]
    else
      var rest := Pieces(s[1..]);
      if Separates(s[0]) then [""] + rest
      else if Vanishes(s[0]) then rest
      else [[s[0]] + rest[0]] + rest[1..]
  }

  ghost function Words(pieces: seq<string>): seq<string> {
    if pieces == [] then [] else (if pieces[0] == "" then [] else [pieces[0]]) + Words(pieces[1..])
  }

  /** The words with one space in between. */
  ghost function Spaced(words: seq<string>): string {
    if words == [] then "" else if |words| == 1 then words[0] else words[0] + " " + Spaced(words[1..])
  }

  // ----- separators become spaces -----

  ghost function SpacePieces(s: string): (r: seq<string>)
    ensures r != []
  {
    if s == "" then [""]
    else
      var rest := SpacePieces(s[1..]);
      if IsSpace(s[0]) then [""] + rest else [[s[0]] + rest[0]] + rest[1..]
  }

  lemma PiecesCons(c: char, s: string)
    ensures SpacePieces([c] + s) ==
      if IsSpace(c) then [""] + SpacePieces(s) else [[c] + SpacePieces(s)[0]] + SpacePieces(s)[1..]
  {
    assert ([c] + s)[1..] == s;
  }

  lemma SpaceIsSpace()
    ensures IsSpace(' ') && IsMarkup(' ')
  {
  }

  lemma {:induction false} ReplacedPieces(s: string)
    ensures SpacePieces(ReplaceUnsafe(s)) == Pieces(s)
  {
    if s != "" {
      hide IsControl, IsFormat, IsSpace;
      var c, rest := s[0], ReplaceUnsafe(s[1..]);
      ReplacedPieces(s[1..]);
      SpaceIsSpace();
      PiecesCons(' ', rest);
      PiecesCons(c, rest);
      assert [] + rest == rest;
      assert " " + rest == [' '] + rest;
    }
  }

  // ----- collapsing and trimming leave the words -----

  /** The leading run of visible characters. */
  ghost function Head(s: string): (n: nat)
    ensures n <= |s| && (n < |s| ==> IsSpace(s[n])) && forall i :: 0 <= i < n ==> !IsSpace(s[i])
  {
    if s != "" && !IsSpace(s[0]) then 1 + Head(s[1..]) else 0
  }

  lemma HeadStep(s: string)
    requires Head(s) > 0
    ensures Head(s[1..]) == Head(s) - 1 && !IsSpace(s[0])
    ensures s[..Head(s)] == [s[0]] + s[1..][..Head(s) - 1] && s[Head(s)..] == s[1..][Head(s) - 1..]
  {
    hide IsSpace;
  }

  lemma VisibleStep(s: string)
    requires s != "" && !IsSpace(s[0])
    ensures CollapseSpaces(s) == [s[0]] + CollapseSpaces(s[1..])
    ensures SpacePieces(s) == [[s[0]] + SpacePieces(s[1..])[0]] + SpacePieces(s[1..])[1..]
  {
    hide IsSpace;
  }

  lemma {:induction false} CollapseHead(s: string)
    ensures CollapseSpaces(s) == s[..Head(s)] + CollapseSpaces(s[Head(s)..])
    ensures SpacePieces(s) == [s[..Head(s)] + SpacePieces(s[Head(s)..])[0]] + SpacePieces(s[Head(s)..])[1..]
  {
    hide IsSpace, Head, CollapseSpaces, SpacePieces;
    var n := Head(s);
    if n == 0 {
      assert s[..0] == "" && s[0..] == s;
      assert "" + SpacePieces(s)[0] == SpacePieces(s)[0];
    } else {
      HeadStep(s);
      VisibleStep(s);
      CollapseHead(s[1..]);
      PrependPieces([s[0]], s[1..][..n - 1], SpacePieces(s[n..]));
      Associates([s[0]], s[1..][..n - 1], CollapseSpaces(s[n..]));
    }
  }

  lemma Associates(a: string, b: string, c: string)
    ensures a + (b + c) == a + b + c
  {
  }

  lemma PrependPieces(a: string, b: string, pieces: seq<string>)
    requires pieces != []
    ensures var r := [b + pieces[0]] + pieces[1..]; [a + r[0]] + r[1..] == [a + b + pieces[0]] + pieces[1..]
  {
    assert a + (b + pieces[0]) == a + b + pieces[0];
  }

  lemma {:induction false} SkippedWords(s: string)
    ensures Words(SpacePieces(TrimStart(s))) == Words(SpacePieces(s))
  {
    hide IsSpace;
    if s != "" && IsSpace(s[0]) {
      SkippedWords(s[1..]);
      assert ([""] + SpacePieces(s[1..]))[1..] == SpacePieces(s[1..]);
    }
  }

  lemma {:induction false} TrimEndConcat(a: string, b: string)
    ensures TrimEnd(a + b) == if TrimEnd(b) == "" then TrimEnd(a) else a + TrimEnd(b)
  {
    hide IsSpace;
    if b == "" {
      assert a + b == a;
    } else {
      var n := |b| - 1;
      assert (a + b)[..|a + b| - 1] == a + b[..n];
      if IsSpace(b[n]) {
        TrimEndConcat(a, b[..n]);
      }
    }
  }

  /** A text that does not start with white space. */
  lemma {:induction false} TrimmedWords(s: string)
    requires s == "" || !IsSpace(s[0])
    ensures TrimEnd(CollapseSpaces(s)) == Spaced(Words(SpacePieces(s)))
    decreases |s|
  {
    hide IsSpace, SpacePieces, CollapseSpaces, Spaced, Words, TrimEnd;
    if s == "" {
      NoWords();
    } else {
      var n := Head(s);
      var w, rest := s[..n], s[n..];
      CollapseHead(s);
      VisibleEnd(w);
      if rest == "" {
        LastWord(w);
      } else {
        var more := TrimStart(rest);
        SpaceFirst(rest);
        SkippedWords(rest);
        TrimmedWords(more);
        WordThenRest(w, rest, more);
      }
    }
  }

  lemma NoWords()
    ensures TrimEnd(CollapseSpaces("")) == Spaced(Words(SpacePieces(""))) == ""
  {
    assert [""][1..] == [];
  }

  lemma VisibleEnd(w: string)
    requires w != "" && !IsSpace(w[|w| - 1])
    ensures TrimEnd(w) == w
  {
  }

  lemma LastWord(w: string)
    requires w != "" && TrimEnd(w) == w
    ensures TrimEnd(w + CollapseSpaces("")) == Spaced(Words([w + SpacePieces("")[0]] + SpacePieces("")[1..]))
  {
    assert w + CollapseSpaces("") == w && w + SpacePieces("")[0] == w;
    assert [w] + SpacePieces("")[1..] == [w];
    assert [w][1..] == [];
  }

  lemma SpaceFirst(rest: string)
    requires rest != "" && IsSpace(rest[0])
    ensures CollapseSpaces(rest) == " " + CollapseSpaces(TrimStart(rest))
    ensures SpacePieces(rest)[0] == "" && |TrimStart(rest)| < |rest|
  {
  }

  lemma WordThenRest(w: string, rest: string, more: string)
    requires w != "" && TrimEnd(w) == w && rest != "" && SpacePieces(rest)[0] == ""
    requires CollapseSpaces(rest) == " " + CollapseSpaces(more)
    requires Words(SpacePieces(more)) == Words(SpacePieces(rest))
    requires TrimEnd(CollapseSpaces(more)) == Spaced(Words(SpacePieces(more)))
    ensures TrimEnd(w + CollapseSpaces(rest)) == Spaced(Words([w + SpacePieces(rest)[0]] + SpacePieces(rest)[1..]))
  {
    hide CollapseSpaces, SpacePieces, TrimEnd, Words, Spaced;
    var ws, x := Words(SpacePieces(rest)), CollapseSpaces(more);
    WordsCons(w, SpacePieces(rest));
    Associates(w, " ", x);
    TrimEndConcat(w + " ", x);
    BlankEnd(w);
    NonEmptyWords(SpacePieces(rest));
    SpacedCons(w, ws);
  }

  lemma WordsStep(p: string, rest: seq<string>)
    ensures Words([p] + rest) == (if p == "" then [] else [p]) + Words(rest)
  {
    assert ([p] + rest)[1..] == rest;
  }

  lemma WordsCons(w: string, pieces: seq<string>)
    requires w != "" && pieces != [] && pieces[0] == ""
    ensures Words([w + pieces[0]] + pieces[1..]) == [w] + Words(pieces)
  {
    hide Words;
    assert w + pieces[0] == w && pieces == [""] + pieces[1..];
    WordsStep(w, pieces[1..]);
    WordsStep("", pieces[1..]);
  }

  lemma BlankEnd(w: string)
    requires TrimEnd(w) == w
    ensures TrimEnd(w + " ") == w
  {
    SpaceIsSpace();
    assert (w + " ")[..|w|] == w;
  }

  lemma {:induction false} NonEmptyWords(pieces: seq<string>)
    ensures forall w :: w in Words(pieces) ==> w != ""
  {
    if pieces != [] {
      NonEmptyWords(pieces[1..]);
    }
  }

  lemma SpacedCons(w: string, ws: seq<string>)
    requires w != "" && forall v :: v in ws ==> v != ""
    ensures Spaced([w] + ws) == if ws == [] then w else w + " " + Spaced(ws)
    ensures Spaced(ws) == "" <==> ws == []
  {
    assert ([w] + ws)[1..] == ws;
    if ws != [] {
      assert ws[0] in ws;
    }
  }

  lemma {:induction false} TrimStartCollapsed(s: string)
    ensures TrimStart(CollapseSpaces(s)) == CollapseSpaces(TrimStart(s))
  {
    hide IsSpace, TrimStart;
    if s == "" {
      BlankStart("");
    } else if IsSpace(s[0]) {
      SpaceFirst(s);
      BlankStart(CollapseSpaces(TrimStart(s)));
      VisibleStart(CollapseSpaces(TrimStart(s)), TrimStart(s));
    } else {
      VisibleStart(CollapseSpaces(s), s);
      StartStays(s);
    }
  }

  lemma StartStays(s: string)
    requires s == "" || !IsSpace(s[0])
    ensures TrimStart(s) == s
  {
  }

  lemma BlankStart(s: string)
    ensures TrimStart(" " + s) == TrimStart(s) && TrimStart("") == ""
  {
    SpaceIsSpace();
    assert (" " + s)[1..] == s;
  }

  lemma VisibleStart(r: string, s: string)
    requires r == CollapseSpaces(s) && (s == "" || !IsSpace(s[0]))
    ensures TrimStart(r) == r
  {
  }

  /** What the replacements and the trim leave are the words of the text. */
  lemma CleanedExactly(text: string)
    ensures Trim(CollapseSpaces(ReplaceUnsafe(text))) == Spaced(Words(Pieces(text)))
  {
    hide CollapseSpaces, ReplaceUnsafe, Pieces, SpacePieces, Words, Spaced, TrimStart, TrimEnd, IsSpace;
    var r := ReplaceUnsafe(text);
    ReplacedPieces(text);
    TrimStartCollapsed(r);
    SkippedWords(r);
    TrimmedWords(TrimStart(r));
  }

  /** The title is the words of the message with single spaces if that fits 96 bytes, and
      else the longest part of it that leaves room for an ellipsis, without white space at
      its end, and the ellipsis. */
  lemma TitleExactly(nfkc: string -> string, message: string)
    ensures var text := Spaced(Words(Pieces(nfkc(message))));
      if Bytes(text) <= 96 then DeriveTitle(nfkc, message) == text
      else exists k :: CutAt(text, k) && DeriveTitle(nfkc, message) == TrimEnd(text[..k]) + ['\U{2026}']
  {
    hide CollapseSpaces, ReplaceUnsafe, Pieces, Words, Spaced, Trim, TrimEnd, Bytes, Utf8Prefix;
    CleanedExactly(nfkc(message));
    var text := Spaced(Words(Pieces(nfkc(message))));
    if Bytes(text) > 96 {
      var k := |Utf8Prefix(text, 93)|;
      assert Utf8Prefix(text, 93) == text[..k];
      PrefixIsCut(text);
    }
  }

  /** The prefix of `k` characters fits 93 bytes, and the next one does not. */
  ghost predicate CutAt(text: string, k: int) {
    0 <= k < |text| && Bytes(text[..k]) <= 93 < Bytes(text[..k + 1])
  }

  lemma PrefixIsCut(text: string)
    requires Bytes(text) > 96
    ensures CutAt(text, |Utf8Prefix(text, 93)|)
  {
    var r := Utf8Prefix(text, 93);
    assert r == text[..|r|];
    assert text[..|text|] == text;
  }
}
