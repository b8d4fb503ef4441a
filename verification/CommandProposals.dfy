/** Shell command proposals of src/aiCommandProposal.ts: fenced blocks read line by
    line out of a possibly still growing answer, and the confirmation that sends an
    approved command at most once. */
module CommandProposals {
  import opened Text

  const MAX_PROPOSALS: nat := 8
  const MAX_COMMAND_BYTES: nat := 32 * 1024 - 1

  const LANGUAGES: set<string> :=
    {"bash", "sh", "zsh", "fish", "powershell", "pwsh", "cmd", "bat", "shell", "console"}

  datatype Fence = Fence(marker: char, length: nat, language: Option<string>)

  datatype Proposal = Proposal(id: string, language: string, command: string)

  // ----- lines -----

  /** `replace(/\r\n?/gu, "\n")` */
  function Normalized(s: string): string {
    if s == "" then ""
    else if s[0] != '\r' then [s[0]] + Normalized(s[1..])
    else ['\n'] + Normalized(if |s| > 1 && s[1] == '\n' then s[2..] else s[1..])
  }

  /** `split("\n")` */
  function Lines(s: string): (r: seq<string>)
    ensures r != [] && forall i :: 0 <= i < |r| ==> '\n' !in r[i]
  {
    if s == "" then [""]
    else
      var rest := Lines(s[1..]);
      if s[0] == '\n' then [""] + rest else [[s[0]] + rest[0]] + rest[1..]
  }

  /** `join("\n")` */
  function JoinLines(lines: seq<string>): string {
    if lines == [] then "" else if |lines| == 1 then lines[0] else lines[0] + ['\n'] + JoinLines(lines[1..])
  }

  // ----- fences -----

  /** How often `c` repeats at the start of a string. */
  function RunOf(s: string, c: char): (n: nat)
    ensures n <= |s| && (n < |s| ==> s[n] != c) && forall i :: 0 <= i < n ==> s[i] == c
  {
    if s != "" && s[0] == c then 1 + RunOf(s[1..], c) else 0
  }

  function LowerAscii(s: string): string {
    if s == "" then ""
    else [if 'A' <= s[0] <= 'Z' then (s[0] as int + 32) as char else s[0]] + LowerAscii(s[1..])
  }

  /** `commandLanguage` */
  function CommandLanguage(value: string): Option<string> {
    var normalized := LowerAscii(Trim(value));
    if normalized in LANGUAGES then Some(normalized) else None
  }

  /** A marker run of at least three behind at most three spaces, and what follows. */
  function MarkerRun(line: string): Option<(char, nat, string)> {
    var indent := RunOf(line, ' ');
    var rest := line[indent..];
    if indent > 3 || rest == "" || (rest[0] != '`' && rest[0] != '~') then None
    else
      var n := RunOf(rest, rest[0]);
      if n < 3 then None else Some((rest[0], n, rest[n..]))
  }

  /** `openingFence` */
  function Opening(line: string): Option<Fence> {
    match MarkerRun(line)
    case None => None
    case Some((marker, n, info)) =>
      if '`' in info then None else Some(Fence(marker, n, CommandLanguage(Trim(info))))
  }

  /** `closesFence` */
  predicate Closes(line: string, fence: Fence) {
    match MarkerRun(line)
    case None => false
    case Some((marker, n, rest)) =>
      marker == fence.marker && n >= fence.length && forall i :: 0 <= i < |rest| ==> IsSpace(rest[i])
  }

  // ----- identifiers -----

  /** The UTF-8 bytes of a scalar value (section 3 of RFC 3629). */
  function Utf8Char(c: char): (r: seq<bv32>)
    ensures |r| == CharBytes(c)
  {
    var n := c as int;
    if n < 0x80 then [n as bv32]
    else if n < 0x800 then [(0xc0 + n / 0x40) as bv32, (0x80 + n % 0x40) as bv32]
    else if n < 0x10000 then
      [(0xe0 + n / 0x1000) as bv32, (0x80 + n / 0x40 % 0x40) as bv32, (0x80 + n % 0x40) as bv32]
    else
      [(0xf0 + n / 0x40000) as bv32, (0x80 + n / 0x1000 % 0x40) as bv32, (0x80 + n / 0x40 % 0x40) as bv32,
       (0x80 + n % 0x40) as bv32]
  }

  function Utf8(s: string): (r: seq<bv32>)
    ensures |r| == Bytes(s)
  {
    if s == "" then [] else Utf8Char(s[0]) + Utf8(s[1..])
  }

  /** `hash ^= byte; hash = Math.imul(hash, 0x01000193) >>> 0` */
  function Mixed(hash: bv32, b: bv32): bv32 {
    (hash ^ b) * 0x01000193
  }

  /** FNV-1a on 32 bits. */
  function Fnv(hash: bv32, bytes: seq<bv32>): bv32
    decreases |bytes|
  {
    if bytes == [] then hash else Fnv(Mixed(hash, bytes[0]), bytes[1..])
  }

  function HexDigit(n: nat): char
    requires n < 16
  {
    if n < 10 then ('0' as int + n) as char else ('a' as int + n - 10) as char
  }

  /** `toString(16).padStart(digits, "0")` of a number that has room. */
  function Hex(n: nat, digits: nat): (r: string)
    ensures |r| == digits
  {
    if digits == 0 then "" else Hex(n / 16, digits - 1) + [HexDigit(n % 16)]
  }

  function HexOf(hash: bv32): (r: string)
    ensures |r| == 8
  {
    Hex(hash as nat, 8)
  }

  /** `proposalFingerprint` */
  function Fingerprint(language: string, command: string): (r: string)
    ensures |r| == 8
  {
    HexOf(Fnv(0x811c9dc5, Utf8(language + ['\0'] + command)))
  }

  function Id(fingerprint: string, occurrence: nat): string {
    "ai-command-" + fingerprint + ['-'] + Decimal(occurrence)
  }

  /** How many proposals carry this fingerprint. */
  function Occurrences(proposals: seq<Proposal>, fingerprint: string): nat {
    if proposals == [] then 0
    else
      var p := proposals[|proposals| - 1];
      Occurrences(proposals[..|proposals| - 1], fingerprint)
      + if Fingerprint(p.language, p.command) == fingerprint then 1 else 0
  }

  // ----- the parser -----

  predicate Unsafe(c: char) {
    (IsControl(c) && c != '\t' && c != '\n' && c != '\r') || IsFormat(c)
  }

  /** Something visible, nothing invisible, and within the byte limit. */
  predicate Acceptable(command: string) {
    Trim(command) != "" && (forall c :: c in command ==> !Unsafe(c)) && Bytes(command) <= MAX_COMMAND_BYTES
  }

  function Proposed(proposals: seq<Proposal>, language: string, command: string): Proposal {
    var fingerprint := Fingerprint(language, command);
    Proposal(Id(fingerprint, Occurrences(proposals, fingerprint) + 1), language, command)
  }

  /** What closing a fence around `lines` adds. */
  function WithBlock(proposals: seq<Proposal>, language: Option<string>, lines: seq<string>): seq<Proposal> {
    if |proposals| < MAX_PROPOSALS && language.Some? && Acceptable(JoinLines(lines)) then
      proposals + [Proposed(proposals, language.value, JoinLines(lines))]
    else proposals
  }

  datatype Parser = Parser(fence: Option<Fence>, lines: seq<string>, proposals: seq<Proposal>)

  function Step(p: Parser, line: string): Parser {
    if |p.proposals| >= MAX_PROPOSALS then p
    else
      match p.fence
      case None => p.(fence := Opening(line), lines := [])
      case Some(fence) =>
        if !Closes(line, fence) then p.(lines := p.lines + [line])
        else Parser(None, [], WithBlock(p.proposals, fence.language, p.lines))
  }

  function Parse(p: Parser, lines: seq<string>): Parser
    decreases |lines|
  {
    if lines == [] then p else Parse(Step(p, lines[0]), lines[1..])
  }

  const START: Parser := Parser(None, [], [])

  /** `extractAiCommandProposals` */
  function Extract(content: string): seq<Proposal> {
    Parse(START, Lines(Normalized(content))).proposals
  }

  lemma {:induction false} FullIsFinal(p: Parser, lines: seq<string>)
    requires |p.proposals| >= MAX_PROPOSALS
    ensures Parse(p, lines) == p
    decreases |lines|
  {
    if lines != [] {
      FullIsFinal(p, lines[1..]);
    }
  }

  ghost predicate Counts(occurrences: map<string, nat>, proposals: seq<Proposal>) {
    forall f :: (if f in occurrences then occurrences[f] else 0) == Occurrences(proposals, f)
  }

  lemma CountsPushed(occurrences: map<string, nat>, proposals: seq<Proposal>, p: Proposal, f: string, n: nat)
    requires Counts(occurrences, proposals) && f == Fingerprint(p.language, p.command)
    requires n == 1 + if f in occurrences then occurrences[f] else 0
    ensures Counts(occurrences[f := n], proposals + [p])
    ensures n == Occurrences(proposals, f) + 1
  {
    hide Fingerprint;
    assert (proposals + [p])[..|proposals|] == proposals;
    forall g ensures (if g in occurrences[f := n] then occurrences[f := n][g] else 0) == Occurrences(proposals + [p], g) {
      assert (if g in occurrences then occurrences[g] else 0) == Occurrences(proposals, g);
    }
  }

  /** `proposalFingerprint` */
  method ProposalFingerprint(language: string, command: string) returns (fingerprint: string)
    ensures fingerprint == Fingerprint(language, command)
  {
    hide HexOf, Utf8, Fnv, Mixed;
    var bytes := Utf8(language + ['\0'] + command);
    var hash: bv32 := 0x811c9dc5;
    for i := 0 to |bytes|
      invariant Fnv(0x811c9dc5, bytes) == Fnv(hash, bytes[i..])
    {
      FnvStep(hash, bytes[i..]);
      assert bytes[i..][1..] == bytes[i + 1..];
      hash := Mixed(hash, bytes[i]);
    }
    FnvEnd(hash);
    assert bytes[|bytes|..] == [];
    fingerprint := HexOf(hash);
  }

  lemma FnvStep(hash: bv32, bytes: seq<bv32>)
    requires bytes != []
    ensures Fnv(hash, bytes) == Fnv(Mixed(hash, bytes[0]), bytes[1..])
  {
  }

  lemma FnvEnd(hash: bv32)
    ensures Fnv(hash, []) == hash
  {
  }

  /** The loop of `extractAiCommandProposals`, with its occurrence map. */
  method ExtractAiCommandProposals(content: string) returns (proposals: seq<Proposal>)
    ensures proposals == Extract(content)
  {
    hide Opening, Closes, Acceptable, Fingerprint, Id, Occurrences, Lines, Normalized, JoinLines;
    var lines := Lines(Normalized(content));
    var occurrences: map<string, nat> := map[];
    var fence: Option<Fence> := None;
    var body: seq<string> := [];
    proposals := [];
    assert Counts(occurrences, proposals) by {
      NoOccurrences();
    }
    for i := 0 to |lines|
      invariant Counts(occurrences, proposals) && |proposals| < MAX_PROPOSALS
      invariant Parse(START, lines) == Parse(Parser(fence, body, proposals), lines[i..])
    {
      var line := lines[i];
      ghost var p := Parser(fence, body, proposals);
      assert lines[i..][0] == line && lines[i..][1..] == lines[i + 1..];
      if fence == None {
        fence, body := Opening(line), [];
      } else if !Closes(line, fence.value) {
        body := body + [line];
      } else {
        var command := JoinLines(body);
        if fence.value.language.Some? && Acceptable(command) {
          var language := fence.value.language.value;
          var fingerprint := ProposalFingerprint(language, command);
          var occurrence := (if fingerprint in occurrences then occurrences[fingerprint] else 0) + 1;
          var proposal := Proposal(Id(fingerprint, occurrence), language, command);
          CountsPushed(occurrences, proposals, proposal, fingerprint, occurrence);
          occurrences := occurrences[fingerprint := occurrence];
          proposals := proposals + [proposal];
        }
        fence, body := None, [];
      }
      assert Parser(fence, body, proposals) == Step(p, line);
      if |proposals| >= MAX_PROPOSALS {
        FullIsFinal(Parser(fence, body, proposals), lines[i + 1..]);
        return;
      }
    }
    assert lines[|lines|..] == [];
  }

  lemma NoOccurrences()
    ensures Counts(map[], [])
  {
  }

  // ----- the blocks of a text -----

  datatype Block = Block(fence: Fence, lines: seq<string>)

  /** The first line that opens a fence, or the end. */
  function FirstOpening(lines: seq<string>): (i: nat)
    ensures i <= |lines|
    decreases |lines|
  {
    if |lines| == 0 || Opening(lines[0]).Some? then 0 else 1 + FirstOpening(lines[1..])
  }

  /** The first line that closes this fence, or the end. */
  function FirstClosing(lines: seq<string>, fence: Fence): (i: nat)
    ensures i <= |lines|
    decreases |lines|
  {
    if lines == [] || Closes(lines[0], fence) then 0 else 1 + FirstClosing(lines[1..], fence)
  }

  lemma {:induction false} OpeningFound(lines: seq<string>, j: nat)
    requires j < |lines|
    ensures j < FirstOpening(lines) ==> Opening(lines[j]) == None
    ensures j == FirstOpening(lines) ==> Opening(lines[j]).Some?
    decreases |lines|
  {
    hide Opening;
    if j > 0 {
      OpeningFound(lines[1..], j - 1);
      assert lines[1..][j - 1] == lines[j];
    }
  }

  lemma {:induction false} ClosingFound(lines: seq<string>, fence: Fence, j: nat)
    requires j < |lines|
    ensures j < FirstClosing(lines, fence) ==> !Closes(lines[j], fence)
    ensures j == FirstClosing(lines, fence) ==> Closes(lines[j], fence)
    decreases |lines|
  {
    hide Closes;
    if j > 0 {
      ClosingFound(lines[1..], fence, j - 1);
      assert lines[1..][j - 1] == lines[j];
    }
  }

  /** The closed fenced blocks of a text, in order: from each opening line outside
      other blocks to the first line that closes it. */
  function Blocks(lines: seq<string>): seq<Block>
    decreases |lines|
  {
    var i := FirstOpening(lines);
    if i == |lines| || Opening(lines[i]) == None then []
    else
      var fence := Opening(lines[i]).value;
      var rest := lines[i + 1..];
      var c := FirstClosing(rest, fence);
      if c == |rest| then [] else [Block(fence, rest[..c])] + Blocks(rest[c + 1..])
  }

  datatype Command = Command(language: string, text: string)

  /** The acceptable shell-labelled blocks. */
  function Commands(blocks: seq<Block>): seq<Command> {
    if blocks == [] then []
    else
      var b := blocks[0];
      var text := JoinLines(b.lines);
      var rest := Commands(blocks[1..]);
      if b.fence.language.Some? && Acceptable(text) then [Command(b.fence.language.value, text)] + rest else rest
  }

  function CommandsOf(proposals: seq<Proposal>): seq<Command> {
    seq(|proposals|, k requires 0 <= k < |proposals| => Command(proposals[k].language, proposals[k].command))
  }

  function Take<T>(n: nat, xs: seq<T>): seq<T> {
    if |xs| <= n then xs else xs[..n]
  }

  lemma {:induction false} SkipText(p: Parser, lines: seq<string>)
    requires p.fence == None && |p.proposals| < MAX_PROPOSALS
    ensures Parse(p, lines).proposals == Parse(Parser(None, [], p.proposals), lines[FirstOpening(lines)..]).proposals
    decreases |lines|
  {
    hide Opening, Closes, WithBlock;
    if lines != [] && Opening(lines[0]) == None {
      SkipText(Step(p, lines[0]), lines[1..]);
      assert lines[1..][FirstOpening(lines[1..])..] == lines[FirstOpening(lines)..];
    } else if lines == [] {
      assert lines[0..] == [];
    } else {
      assert lines[0..] == lines;
    }
  }

  lemma {:induction false} Collect(p: Parser, lines: seq<string>)
    requires p.fence.Some? && |p.proposals| < MAX_PROPOSALS
    ensures var c := FirstClosing(lines, p.fence.value);
      Parse(p, lines) == Parse(p.(lines := p.lines + lines[..c]), lines[c..])
    decreases |lines|
  {
    hide Opening, Closes, WithBlock;
    var c := FirstClosing(lines, p.fence.value);
    if c == 0 {
      assert lines[0..] == lines && p.lines + lines[..0] == p.lines;
    } else {
      Collect(Step(p, lines[0]), lines[1..]);
      assert lines[1..][c - 1..] == lines[c..];
      assert p.lines + [lines[0]] + lines[1..][..c - 1] == p.lines + lines[..c];
    }
  }

  lemma BlocksStep(lines: seq<string>, i: nat, c: nat)
    requires i == FirstOpening(lines) < |lines|
    requires Opening(lines[i]).Some? && c == FirstClosing(lines[i + 1..], Opening(lines[i]).value)
    ensures Blocks(lines) == if c == |lines[i + 1..]| then []
      else [Block(Opening(lines[i]).value, lines[i + 1..][..c])] + Blocks(lines[i + 1..][c + 1..])
  {
    hide Opening, Closes, FirstOpening, FirstClosing;
  }

  lemma CommandsPushed(ps: seq<Proposal>, p: Proposal)
    ensures CommandsOf(ps + [p]) == CommandsOf(ps) + [Command(p.language, p.command)]
  {
  }

  lemma CommandsCons(b: Block, rest: seq<Block>)
    ensures Commands([b] + rest)
      == (if b.fence.language.Some? && Acceptable(JoinLines(b.lines))
          then [Command(b.fence.language.value, JoinLines(b.lines))] else []) + Commands(rest)
  {
    hide Acceptable, JoinLines;
    assert ([b] + rest)[1..] == rest;
  }

  lemma CommandsWithBlock(ps: seq<Proposal>, b: Block, rest: seq<Block>)
    requires |ps| < MAX_PROPOSALS
    ensures CommandsOf(WithBlock(ps, b.fence.language, b.lines)) + Commands(rest)
      == CommandsOf(ps) + Commands([b] + rest)
  {
    hide Acceptable, JoinLines, Occurrences, Fingerprint, Id, CommandsOf, Commands;
    CommandsCons(b, rest);
    if b.fence.language.Some? && Acceptable(JoinLines(b.lines)) {
      var text := JoinLines(b.lines);
      var more := [Command(b.fence.language.value, text)];
      CommandsPushed(ps, Proposed(ps, b.fence.language.value, text));
      assert CommandsOf(ps) + more + Commands(rest) == CommandsOf(ps) + (more + Commands(rest));
    }
  }

  lemma ParseOpening(p: Parser, lines: seq<string>)
    requires p.fence == None && |p.proposals| < MAX_PROPOSALS
    ensures var i := FirstOpening(lines);
      Parse(p, lines).proposals
      == if i == |lines| then p.proposals
         else Parse(Parser(Opening(lines[i]), [], p.proposals), lines[i + 1..]).proposals
  {
    hide Opening, Closes, WithBlock, FirstOpening;
    var i := FirstOpening(lines);
    SkipText(p, lines);
    if i < |lines| {
      OpeningFound(lines, i);
      assert lines[i..][0] == lines[i] && lines[i..][1..] == lines[i + 1..];
    }
  }

  lemma ParseClosing(fence: Fence, ps: seq<Proposal>, lines: seq<string>)
    requires |ps| < MAX_PROPOSALS
    ensures var c := FirstClosing(lines, fence);
      Parse(Parser(Some(fence), [], ps), lines).proposals
      == if c == |lines| then ps
         else Parse(Parser(None, [], WithBlock(ps, fence.language, lines[..c])), lines[c + 1..]).proposals
  {
    hide Opening, Closes, WithBlock, FirstClosing;
    var c := FirstClosing(lines, fence);
    Collect(Parser(Some(fence), [], ps), lines);
    assert [] + lines[..c] == lines[..c];
    if c < |lines| {
      ClosingFound(lines, fence, c);
      assert lines[c..][0] == lines[c] && lines[c..][1..] == lines[c + 1..];
    }
  }

  /** The line-by-line parser finds the commands of the text's blocks, up to the
      limit. */
  lemma {:induction false} ParseFindsBlocks(p: Parser, lines: seq<string>)
    requires p.fence == None && |p.proposals| <= MAX_PROPOSALS
    ensures CommandsOf(Parse(p, lines).proposals)
      == Take(MAX_PROPOSALS, CommandsOf(p.proposals) + Commands(Blocks(lines)))
    decreases |lines|
  {
    hide Opening, Closes, WithBlock, FirstOpening, FirstClosing, Commands, CommandsOf, Parse, Blocks;
    assert |CommandsOf(p.proposals)| == |p.proposals| by {
      CommandsLength(p.proposals);
    }
    if |p.proposals| == MAX_PROPOSALS {
      FullIsFinal(p, lines);
    } else {
      var i := FirstOpening(lines);
      ParseOpening(p, lines);
      if i == |lines| {
        NoBlocks(lines);
      } else {
        OpeningFound(lines, i);
        var fence, rest := Opening(lines[i]).value, lines[i + 1..];
        var c := FirstClosing(rest, fence);
        BlocksStep(lines, i, c);
        ParseClosing(fence, p.proposals, rest);
        if c == |rest| {
          NoCommands();
        } else {
          var b := Block(fence, rest[..c]);
          CommandsWithBlock(p.proposals, b, Blocks(rest[c + 1..]));
          WithBlockFits(p.proposals, fence.language, rest[..c]);
          ParseFindsBlocks(Parser(None, [], WithBlock(p.proposals, fence.language, rest[..c])), rest[c + 1..]);
        }
      }
    }
  }

  lemma CommandsLength(ps: seq<Proposal>)
    ensures |CommandsOf(ps)| == |ps|
  {
  }

  lemma NoCommands()
    ensures Commands([]) == []
  {
  }

  lemma NoBlocks(lines: seq<string>)
    requires FirstOpening(lines) == |lines|
    ensures Commands(Blocks(lines)) == []
  {
  }

  lemma WithBlockFits(ps: seq<Proposal>, language: Option<string>, lines: seq<string>)
    requires |ps| <= MAX_PROPOSALS
    ensures |WithBlock(ps, language, lines)| <= MAX_PROPOSALS
  {
  }

  /** The proposals are the first eight acceptable shell-labelled blocks. */
  lemma ExtractFindsBlocks(content: string)
    ensures CommandsOf(Extract(content)) == Take(MAX_PROPOSALS, Commands(Blocks(Lines(Normalized(content)))))
  {
    hide Blocks, Commands, Lines, Normalized, Parse;
    ParseFindsBlocks(START, Lines(Normalized(content)));
    assert CommandsOf([]) == [];
  }

  lemma {:induction false} CommandsAreBlocks(blocks: seq<Block>, k: nat) returns (i: nat)
    requires k < |Commands(blocks)|
    ensures i < |blocks| && blocks[i].fence.language == Some(Commands(blocks)[k].language)
    ensures Commands(blocks)[k].text == JoinLines(blocks[i].lines) && Acceptable(Commands(blocks)[k].text)
  {
    hide Acceptable, JoinLines;
    var b := blocks[0];
    var hit := b.fence.language.Some? && Acceptable(JoinLines(b.lines));
    if hit && k == 0 {
      i := 0;
    } else {
      i := CommandsAreBlocks(blocks[1..], if hit then k - 1 else k);
      i := i + 1;
    }
  }

  // ----- streaming -----

  lemma {:induction false} ParseConcat(p: Parser, a: seq<string>, b: seq<string>)
    ensures Parse(p, a + b) == Parse(Parse(p, a), b)
    decreases |a|
  {
    hide Step;
    if a == [] {
      assert a + b == b;
    } else {
      ParseConcat(Step(p, a[0]), a[1..], b);
      assert (a + b)[0] == a[0] && (a + b)[1..] == a[1..] + b;
    }
  }

  lemma {:induction false} ProposalsGrow(p: Parser, lines: seq<string>)
    ensures p.proposals <= Parse(p, lines).proposals
    decreases |lines|
  {
    if lines != [] {
      ProposalsGrow(Step(p, lines[0]), lines[1..]);
    }
    hide Opening, Closes, Acceptable, Proposed, JoinLines;
  }

  lemma BlankLineIsInert(p: Parser)
    ensures Parse(p, [""]).proposals == p.proposals
  {
    assert MarkerRun("") == None;
    assert [""][1..] == [];
    assert Parse(p, [""]) == Parse(Step(p, ""), []);
  }

  lemma LinesCons(c: char, t: string)
    ensures Lines([c] + t) == if c == '\n' then [""] + Lines(t) else [[c] + Lines(t)[0]] + Lines(t)[1..]
  {
    assert ([c] + t)[1..] == t;
  }

  lemma HeadAppend(c: char, x: seq<string>, y: seq<string>)
    requires x != []
    ensures [[c] + (x + y)[0]] + (x + y)[1..] == [[c] + x[0]] + x[1..] + y
    ensures [""] + (x + y) == [""] + x + y
  {
    assert (x + y)[0] == x[0] && (x + y)[1..] == x[1..] + y;
  }

  lemma {:induction false} LinesConcat(a: string, b: string)
    ensures Lines(a + ['\n'] + b) == Lines(a) + Lines(b)
  {
    if a == [] {
      assert a + ['\n'] + b == ['\n'] + b;
      LinesCons('\n', b);
    } else {
      var c, t := a[0], a[1..];
      hide Lines;
      assert a == [c] + t && a + ['\n'] + b == [c] + (t + ['\n'] + b);
      LinesConcat(t, b);
      LinesCons(c, t);
      LinesCons(c, t + ['\n'] + b);
      HeadAppend(c, Lines(t), Lines(b));
    }
  }

  /** A text without a final carriage return. */
  function Body(s: string): string {
    if s != "" && s[|s| - 1] == '\r' then s[..|s| - 1] else s
  }

  /** How many characters one step of the normalisation reads. */
  function Width(s: string): (k: nat)
    requires s != ""
    ensures 1 <= k <= |s|
  {
    if s[0] == '\r' && |s| > 1 && s[1] == '\n' then 2 else 1
  }

  lemma NormalizedStep(s: string)
    requires s != ""
    ensures Normalized(s) == [if s[0] == '\r' then '\n' else s[0]] + Normalized(s[Width(s)..])
  {
  }

  lemma {:induction false} NormalizedConcat(a: string, b: string)
    ensures Normalized(a + ['\n'] + b) == Normalized(Body(a)) + ['\n'] + Normalized(b)
    decreases |a|
  {
    hide Normalized;
    var s := a + ['\n'] + b;
    NormalizedStep(s);
    if a == "" {
      assert s[1..] == b;
      NormalizedEmpty();
    } else if a == ['\r'] {
      assert s[1] == '\n' && s[2..] == b;
      NormalizedEmpty();
    } else {
      var k := Width(a);
      assert s[0] == a[0] && s[1] == if |a| > 1 then a[1] else '\n';
      assert k == Width(s);
      assert s[k..] == a[k..] + ['\n'] + b;
      BodyTail(a, k);
      assert Width(Body(a)) == k;
      NormalizedStep(Body(a));
      NormalizedConcat(a[k..], b);
    }
  }

  lemma NormalizedEmpty()
    ensures Normalized("") == ""
  {
  }

  lemma BodyTail(a: string, k: nat)
    requires 0 < k < |a| || (0 < k == |a| && a[k - 1] != '\r')
    ensures k <= |Body(a)| && Body(a)[k..] == Body(a[k..])
    ensures forall i :: 0 <= i < k ==> Body(a)[i] == a[i]
  {
  }

  /** A final carriage return is one more line break. */
  lemma {:induction false} NormalizedReturn(a: string)
    requires Body(a) != a
    ensures Normalized(a) == Normalized(Body(a)) + ['\n']
    decreases |a|
  {
    if |a| > 1 {
      var k := if a[0] == '\r' && a[1] == '\n' then 2 else 1;
      BodyTail(a, k);
      NormalizedReturn(a[k..]);
    }
  }

  /** While an answer streams in, the proposals of each complete line stay: same
      identifiers, same commands. */
  lemma StableUnderStreaming(a: string, b: string)
    ensures Extract(a) <= Extract(a + ['\n'] + b)
  {
    hide Lines, Normalized, Parse;
    var x, y := Normalized(Body(a)), Normalized(b);
    NormalizedConcat(a, b);
    LinesConcat(x, y);
    var p := Parse(START, Lines(x));
    ParseConcat(START, Lines(x), Lines(y));
    ProposalsGrow(p, Lines(y));
    if Body(a) != a {
      NormalizedReturn(a);
      LinesConcat(x, "");
      assert x + ['\n'] + "" == x + ['\n'];
      NoLines();
      ParseConcat(START, Lines(x), [""]);
      BlankLineIsInert(p);
    }
  }

  lemma NoLines()
    ensures Lines("") == [""]
  {
  }

  lemma OneLine(line: string)
    requires '\n' !in line
    ensures Lines(line) == [line]
    decreases |line|
  {
    if line != "" {
      assert line[0] in line && forall c :: c in line[1..] ==> c in line;
      OneLine(line[1..]);
      assert [line[0]] + line[1..] == line;
    }
  }

  /** A command keeps the exact lines between its fences. */
  lemma {:induction false} LinesOfJoin(lines: seq<string>)
    requires lines != [] && forall i :: 0 <= i < |lines| ==> '\n' !in lines[i]
    ensures Lines(JoinLines(lines)) == lines
    decreases |lines|
  {
    hide Lines;
    OneLine(lines[0]);
    if |lines| > 1 {
      LinesOfJoin(lines[1..]);
      LinesConcat(lines[0], JoinLines(lines[1..]));
    }
  }

  // ----- identifiers differ -----

  /** Every proposal is numbered among those before it. */
  ghost predicate Numbered(ps: seq<Proposal>) {
    forall k :: 0 <= k < |ps| ==> ps[k] == Proposed(ps[..k], ps[k].language, ps[k].command)
  }

  lemma NumberedStep(p: Parser, line: string)
    requires Numbered(p.proposals)
    ensures Numbered(Step(p, line).proposals)
  {
    hide Opening, Closes, Acceptable, Proposed, JoinLines;
    var ps, qs := p.proposals, Step(p, line).proposals;
    forall k | 0 <= k < |qs| ensures qs[k] == Proposed(qs[..k], qs[k].language, qs[k].command) {
      assert qs[..k] == ps[..k];
      if k == |ps| {
        assert ps[..k] == ps;
        ProposedKeeps(ps, qs[k]);
      }
    }
  }

  lemma ProposedKeeps(ps: seq<Proposal>, p: Proposal)
    ensures forall l, c :: p == Proposed(ps, l, c) ==> p == Proposed(ps, p.language, p.command)
  {
  }

  lemma {:induction false} ParseNumbers(p: Parser, lines: seq<string>)
    requires Numbered(p.proposals)
    ensures Numbered(Parse(p, lines).proposals)
    decreases |lines|
  {
    hide Step, Numbered;
    if lines != [] {
      NumberedStep(p, lines[0]);
      ParseNumbers(Step(p, lines[0]), lines[1..]);
    }
  }

  lemma {:induction false} OccurrencesGrow(ps: seq<Proposal>, i: nat, f: string)
    requires i < |ps|
    ensures Occurrences(ps, f) >= Occurrences(ps[..i], f)
      + if Fingerprint(ps[i].language, ps[i].command) == f then 1 else 0
  {
    hide Fingerprint;
    var n := |ps| - 1;
    if i < n {
      OccurrencesGrow(ps[..n], i, f);
      assert ps[..n][..i] == ps[..i];
    }
  }

  lemma IdInjective(f: string, m: nat, g: string, n: nat)
    requires |f| == |g| && Id(f, m) == Id(g, n)
    ensures f == g && m == n
  {
    var a, b := Id(f, m), Id(g, n);
    assert a[11..11 + |f|] == f && b[11..11 + |g|] == g;
    assert a[12 + |f|..] == Decimal(m) && b[12 + |g|..] == Decimal(n);
    DecimalInjective(m, n);
  }

  lemma NumberedDiffer(ps: seq<Proposal>, i: nat, j: nat)
    requires Numbered(ps) && i < j < |ps|
    ensures ps[i].id != ps[j].id
  {
    hide Fingerprint, Id, Occurrences;
    var f, g := Fingerprint(ps[i].language, ps[i].command), Fingerprint(ps[j].language, ps[j].command);
    var m, n := Occurrences(ps[..i], f) + 1, Occurrences(ps[..j], g) + 1;
    assert ps[i].id == Id(f, m) && ps[j].id == Id(g, n);
    OccurrencesGrow(ps[..j], i, f);
    assert ps[..j][..i] == ps[..i];
    assert f == g ==> m != n;
    if Id(f, m) == Id(g, n) {
      IdInjective(f, m, g, n);
    }
  }

  /** Identifiers are pairwise distinct, even where fingerprints collide. */
  lemma DistinctIds(content: string, i: nat, j: nat)
    requires i < j < |Extract(content)|
    ensures Extract(content)[i].id != Extract(content)[j].id
  {
    hide Parse, Lines, Normalized, Proposed;
    ParseNumbers(START, Lines(Normalized(content)));
    NumberedDiffer(Extract(content), i, j);
  }

  // ----- confirmation -----

  /** Approvals are object identities; one may be confirmed again and again. */
  datatype Confirm = Confirm(approval: nat) | Sent(approval: nat) | SendFailed(approval: nat)

  /** `claimedApprovals`, with the sends under way and those that succeeded. */
  datatype Claims = Claims(claimed: set<nat>, running: multiset<nat>, succeeded: multiset<nat>)

  function Next(s: Claims, e: Confirm): Claims {
    match e
    case Confirm(a) =>
      if a in s.claimed then s else s.(claimed := s.claimed + {a}, running := s.running + multiset{a})
    case Sent(a) =>
      if a !in s.running then s
      else s.(running := s.running - multiset{a}, succeeded := s.succeeded + multiset{a})
    case SendFailed(a) =>
      if a !in s.running then s
      else s.(running := s.running - multiset{a}, claimed := s.claimed - {a})
  }

  function History(s: Claims, events: seq<Confirm>): Claims {
    if events == [] then s else Next(History(s, events[..|events| - 1]), events[|events| - 1])
  }

  const NO_CLAIMS: Claims := Claims({}, multiset{}, multiset{})

  /** An approval is sent at most once at a time and never again after a success;
      it is claimed exactly then. */
  lemma {:induction false} AtMostOneSend(events: seq<Confirm>, a: nat)
    ensures var s := History(NO_CLAIMS, events);
      s.running[a] + s.succeeded[a] == if a in s.claimed then 1 else 0
  {
    if events != [] {
      AtMostOneSend(events[..|events| - 1], a);
    }
  }

  lemma SettledOnce(s: Claims, a: nat, ok: bool)
    requires a in s.running && s.running[a] + s.succeeded[a] == if a in s.claimed then 1 else 0
    ensures var t := Next(s, if ok then Sent(a) else SendFailed(a));
      && t.running[a] == 0 && t.succeeded[a] == (if ok then 1 else 0)
      && t.claimed == (if ok then s.claimed else s.claimed - {a})
      && forall b :: b != a ==> t.running[b] == s.running[b] && t.succeeded[b] == s.succeeded[b]
  {
  }

  /** `confirmAiCommandApproval`, from its call to the settlement of its send. */
  class Approvals {
    var claimed: set<nat>
    ghost var running: multiset<nat>
    ghost var succeeded: multiset<nat>
    ghost var trace: seq<Confirm>

    ghost function Now(): Claims
      reads this
    {
      Claims(claimed, running, succeeded)
    }

    ghost predicate Valid()
      reads this
    {
      Now() == History(NO_CLAIMS, trace)
    }

    constructor ()
      ensures Valid() && trace == [] && running == multiset{} == succeeded
    {
      claimed, running, succeeded, trace := {}, multiset{}, multiset{}, [];
    }

    /** Up to the awaited send. The command is sent exactly when no send of this
        approval is under way or succeeded; otherwise the call is refused. */
    method Begin(approval: nat) returns (sending: bool)
      requires Valid()
      modifies this
      ensures Valid() && trace == old(trace) + [Confirm(approval)]
      ensures sending <==> approval !in old(running) && approval !in old(succeeded)
      ensures running == if sending then old(running) + multiset{approval} else old(running)
      ensures succeeded == old(succeeded) && running[approval] + succeeded[approval] == 1
    {
      AtMostOneSend(trace, approval);
      Happened(Confirm(approval));
      sending := approval !in claimed;
      if sending {
        claimed := claimed + {approval};
        running := running + multiset{approval};
      }
    }

    /** A successful send is final; after a failed one the approval may be sent again. */
    method Settle(approval: nat, ok: bool)
      requires Valid() && approval in running
      modifies this
      ensures Valid() && trace == old(trace) + [if ok then Sent(approval) else SendFailed(approval)]
      ensures running[approval] == 0 && succeeded[approval] == if ok then 1 else 0
      ensures forall a :: a != approval ==> running[a] == old(running[a]) && succeeded[a] == old(succeeded[a])
    {
      hide Next, History;
      AtMostOneSend(trace, approval);
      SettledOnce(Now(), approval, ok);
      ghost var next := Next(Now(), if ok then Sent(approval) else SendFailed(approval));
      Happened(if ok then Sent(approval) else SendFailed(approval));
      running, succeeded := next.running, next.succeeded;
      if !ok {
        claimed := claimed - {approval};
      }
    }

    ghost method Happened(e: Confirm)
      requires Valid()
      modifies this`trace
      ensures trace == old(trace) + [e] && Next(Now(), e) == History(NO_CLAIMS, trace)
    {
      assert (trace + [e])[..|trace|] == trace;
      trace := trace + [e];
    }
  }
}
