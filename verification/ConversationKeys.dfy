/** Identities of the AI conversation store (src/aiConversationState.ts): bounded
    opaque identifiers, scope keys, target keys and derived titles. */
module ConversationKeys {
  import opened Text

  const MAX_SCOPE_KEY_BYTES: nat := 2 * 1024
  const MAX_OPAQUE_ID_BYTES: nat := 256
  const MAX_TITLE_BYTES: nat := 96
  const MAX_SAFE_INTEGER: nat := 9007199254740991
  const NO_TERMINAL_SCOPE_KEY: string := "no-terminal"

  datatype Error =
    | RouteIdInvalid
    | GenerationInvalid
    | ScopeKeyInvalid
    | IdInvalid
    | IdDuplicate
    | RoleInvalid
    | AttachmentNameInvalid
    | AttachmentsInvalid
    | ToolActivityInvalid
    | BoundInvariant

  datatype Result<+T> = Ok(value: T) | Err(error: Error)

  datatype TerminalScope = TerminalScope(routeId: string, generation: int)

  /** The test of `assertBoundedOpaqueText`. */
  predicate IsOpaqueText(s: string, maxBytes: nat) {
    s != [] && Bytes(s) <= maxBytes && forall i :: 0 <= i < |s| ==> !IsControl(s[i]) && !IsFormat(s[i])
  }

  predicate IsScopeKey(s: string) {
    IsOpaqueText(s, MAX_SCOPE_KEY_BYTES)
  }

  predicate IsOpaqueId(s: string) {
    IsOpaqueText(s, MAX_OPAQUE_ID_BYTES)
  }

  /** `aiConversationScopeKey` */
  function ScopeKey(scope: Option<TerminalScope>): (r: Result<string>)
    ensures r.Ok? && scope.Some? ==> IsScopeKey(r.value)
  {
    match scope
    case None => Ok(NO_TERMINAL_SCOPE_KEY)
    case Some(t) =>
      if !IsOpaqueText(t.routeId, MAX_SCOPE_KEY_BYTES) then Err(RouteIdInvalid)
      else if !(0 <= t.generation <= MAX_SAFE_INTEGER) then Err(GenerationInvalid)
      else
        var key := t.routeId + [':'] + Decimal(t.generation);
        if IsScopeKey(key) then Ok(key) else Err(ScopeKeyInvalid)
  }

  /** `targetKey` */
  function TargetKey(scopeKey: string, conversationId: string): string {
    scopeKey + ['\0'] + conversationId
  }

  lemma PlainIsSafe(c: char)
    requires ' ' <= c <= '~'
    ensures !IsControl(c) && !IsFormat(c)
  {
  }

  lemma PlainTextIsOpaque(s: string, maxBytes: nat)
    requires s != [] && 4 * |s| <= maxBytes
    requires forall i :: 0 <= i < |s| ==> ' ' <= s[i] <= '~'
    ensures IsOpaqueText(s, maxBytes)
  {
    BytesBound(s);
    forall i | 0 <= i < |s|
      ensures !IsControl(s[i]) && !IsFormat(s[i])
    {
      PlainIsSafe(s[i]);
    }
  }

  lemma NoTerminalKeyIsValid()
    ensures IsScopeKey(NO_TERMINAL_SCOPE_KEY)
    ensures ':' !in NO_TERMINAL_SCOPE_KEY
  {
    hide IsOpaqueText, IsControl, IsFormat, Bytes;
    PlainTextIsOpaque(NO_TERMINAL_SCOPE_KEY, MAX_SCOPE_KEY_BYTES);
  }

  lemma TerminalKeyHasColon(scope: TerminalScope)
    requires ScopeKey(Some(scope)).Ok?
    ensures ':' in ScopeKey(Some(scope)).value
  {
    assert ScopeKey(Some(scope)).value[|scope.routeId|] == ':';
  }

  lemma {:induction false} BytesBound(s: string)
    ensures Bytes(s) <= 4 * |s|
  {
    if s != [] {
      BytesBound(s[1..]);
    }
  }

  /** Two terminals share a history only when route and generation agree, even
      when routes contain colons; no terminal shares the terminal-less history. */
  lemma ScopeKeyInjective(a: Option<TerminalScope>, b: Option<TerminalScope>)
    requires ScopeKey(a).Ok? && ScopeKey(b).Ok?
    ensures ScopeKey(a).value == ScopeKey(b).value <==> a == b
  {
    if ScopeKey(a).value == ScopeKey(b).value {
      NoTerminalKeyIsValid();
      if a.Some? {
        TerminalKeyHasColon(a.value);
      }
      if b.Some? {
        TerminalKeyHasColon(b.value);
      }
      if a.Some? && b.Some? {
        var s, t := a.value, b.value;
        SplitAtLast(s.routeId, Decimal(s.generation), t.routeId, Decimal(t.generation), ':');
        DecimalInjective(s.generation, t.generation);
      }
    }
  }

  lemma ScopeKeyHasNoNul(k: string)
    requires IsScopeKey(k)
    ensures '\0' !in k
  {
    assert IsControl('\0');
  }

  /** A target key names one scope and one conversation. */
  lemma TargetKeyInjective(k: string, id: string, k': string, id': string)
    requires IsScopeKey(k) && IsScopeKey(k')
    ensures TargetKey(k, id) == TargetKey(k', id') <==> k == k' && id == id'
  {
    if TargetKey(k, id) == TargetKey(k', id') {
      ScopeKeyHasNoNul(k);
      ScopeKeyHasNoNul(k');
      SplitAtFirst(k, id, k', id', '\0');
    }
  }

  /** The `startsWith` test of the scope cap matches exactly the protected scope. */
  lemma ProtectionPrefixExact(k: string, id: string, scope: string)
    requires IsScopeKey(k) && IsScopeKey(scope)
    ensures scope + ['\0'] <= TargetKey(k, id) <==> k == scope
  {
    var t := TargetKey(k, id);
    if scope + ['\0'] <= t {
      var rest := t[|scope| + 1..];
      assert t == TargetKey(scope, rest);
      TargetKeyInjective(k, id, scope, rest);
    }
  }

  /** The longest prefix that fits: what `takeUtf8Prefix` returns. */
  function Utf8Prefix(s: string, maxBytes: nat): (r: string)
    ensures r <= s && Bytes(r) <= maxBytes
    ensures r == s || Bytes(s[..|r| + 1]) > maxBytes
    ensures Bytes(s) <= maxBytes ==> r == s
  {
    if s == [] || CharBytes(s[0]) > maxBytes then
      assert s != [] ==> s[..1] == [s[0]];
      []
    else
      var rest := Utf8Prefix(s[1..], maxBytes - CharBytes(s[0]));
      var r := [s[0]] + rest;
      assert r[1..] == rest;
      assert rest != s[1..] ==> s[..|r| + 1][1..] == s[1..][..|rest| + 1];
      r
  }

  lemma BytesMonotone(s: string, j: nat, k: nat)
    requires j <= k <= |s|
    ensures Bytes(s[..j]) <= Bytes(s[..k])
  {
    hide Bytes;
    BytesConcat(s[..j], s[j..k]);
    assert s[..j] + s[j..k] == s[..k];
  }

  /** The prefix that fits, and whose extension by one character does not, is unique. */
  lemma LongestPrefix(s: string, i: nat, maxBytes: nat)
    requires i <= |s| && Bytes(s[..i]) <= maxBytes
    requires i < |s| ==> Bytes(s[..i + 1]) > maxBytes
    ensures Utf8Prefix(s, maxBytes) == s[..i]
  {
    hide Bytes, Utf8Prefix;
    var n := |Utf8Prefix(s, maxBytes)|;
    assert Utf8Prefix(s, maxBytes) == s[..n];
    if n < i {
      BytesMonotone(s, n + 1, i);
    } else if i < n {
      BytesMonotone(s, i + 1, n);
    }
  }

  /** `takeUtf8Prefix` */
  method TakeUtf8Prefix(value: string, maxBytes: nat) returns (result: string)
    ensures result == Utf8Prefix(value, maxBytes)
  {
    hide Utf8Prefix, CharBytes;
    if Bytes(value) <= maxBytes {
      return value;
    }
    result := "";
    var used := 0;
    for i := 0 to |value|
      invariant result == value[..i] && used == Bytes(result) <= maxBytes
    {
      var size := CharBytes(value[i]);
      BytesConcat(result, [value[i]]);
      assert value[..i + 1] == result + [value[i]];
      if used + size > maxBytes {
        LongestPrefix(value, i, maxBytes);
        return;
      }
      result := result + [value[i]];
      used := used + size;
    }
    LongestPrefix(value, |value|, maxBytes);
  }

  predicate IsMarkup(c: char) {
    c == '<' || c == '>' || c == ' ' || c == '&'
  }

  /** The first replacement of `deriveAiConversationTitle`. */
  function ReplaceUnsafe(s: string): (r: string)
    ensures forall i :: 0 <= i < |r| ==> !IsControl(r[i]) && !IsFormat(r[i])
    ensures forall i :: 0 <= i < |r| ==> r[i] == ' ' || !IsMarkup(r[i])
  {
    if s == [] then []
    else
      var c := s[0];
      var head :=
        if IsControl(c) || IsFormat(c) || IsMarkup(c) then
          if IsSpace(c) || IsMarkup(c) then " " else ""
        else [c];
      head + ReplaceUnsafe(s[1..])
  }

  /** `replace(/\s+/gu, " ")` */
  function CollapseSpaces(s: string): (r: string)
    ensures forall i :: 0 <= i < |r| ==> r[i] == ' ' || (r[i] in s && !IsSpace(r[i]))
    decreases |s|
  {
    if s == [] then []
    else if IsSpace(s[0]) then
      var rest := TrimStart(s[1..]);
      [' '] + CollapseSpaces(rest)
    else [s[0]] + CollapseSpaces(s[1..])
  }

  /** A character a derived title may hold. */
  predicate IsTitleChar(c: char) {
    c == ' ' || (!IsSpace(c) && !IsControl(c) && !IsFormat(c) && !IsMarkup(c))
  }

  ghost predicate IsTitleText(t: string) {
    forall i :: 0 <= i < |t| ==> IsTitleChar(t[i])
  }

  ghost predicate IsTitle(t: string) {
    && Bytes(t) <= MAX_TITLE_BYTES
    && IsTitleText(t)
    && (t != [] ==> t[0] != ' ' && t[|t| - 1] != ' ')
  }

  /** `deriveAiConversationTitle`; `nfkc` stands for Unicode normalisation. */
  function DeriveTitle(nfkc: string -> string, message: string): string {
    var normalized := Trim(CollapseSpaces(ReplaceUnsafe(nfkc(message))));
    if Bytes(normalized) <= MAX_TITLE_BYTES then normalized
    else TrimEnd(Utf8Prefix(normalized, MAX_TITLE_BYTES - 3)) + ['\U{2026}']
  }

  lemma TrimKeepsTitleChars(s: string)
    requires IsTitleText(s)
    ensures IsTitleText(Trim(s))
  {
    hide IsTitleChar, Trim;
    var t := Trim(s);
    forall i | 0 <= i < |t| ensures IsTitleChar(t[i]) {
      assert t[i] in t && t[i] in s;
    }
  }

  lemma CollapsedIsTitleText(s: string)
    ensures IsTitleText(CollapseSpaces(ReplaceUnsafe(s)))
  {
    var clean := ReplaceUnsafe(s);
    var r := CollapseSpaces(clean);
    forall i | 0 <= i < |r|
      ensures IsTitleChar(r[i])
    {
      if r[i] != ' ' {
        var j :| 0 <= j < |clean| && clean[j] == r[i];
      }
    }
  }

  lemma AppendTitleChar(s: string, c: char)
    requires Bytes(s) + CharBytes(c) <= MAX_TITLE_BYTES
    requires IsTitleText(s)
    requires s != [] ==> s[0] != ' '
    requires IsTitleChar(c) && c != ' '
    ensures IsTitle(s + [c])
  {
    BytesConcat(s, [c]);
  }

  lemma CutTitle(normalized: string, room: nat, ellipsis: char)
    requires IsTitleText(normalized)
    requires normalized != [] ==> normalized[0] != ' '
    requires IsTitleChar(ellipsis) && ellipsis != ' ' && room + CharBytes(ellipsis) <= MAX_TITLE_BYTES
    ensures IsTitle(TrimEnd(Utf8Prefix(normalized, room)) + [ellipsis])
  {
    var prefix := Utf8Prefix(normalized, room);
    var cut := TrimEnd(prefix);
    assert prefix == cut + prefix[|cut|..];
    BytesConcat(cut, prefix[|cut|..]);
    assert forall i :: 0 <= i < |cut| ==> cut[i] == normalized[i];
    AppendTitleChar(cut, ellipsis);
  }

  lemma EllipsisIsTitleChar()
    ensures IsTitleChar('\U{2026}') && CharBytes('\U{2026}') == 3
  {
  }

  /** Whatever the message and however it normalises, the title fits 96 bytes and
      holds no markup, control or format character and no outer space. */
  lemma DerivedTitleIsTitle(nfkc: string -> string, message: string)
    ensures IsTitle(DeriveTitle(nfkc, message))
  {
    hide IsTitleText, IsTitleChar, Trim, TrimEnd, Utf8Prefix, CollapseSpaces, ReplaceUnsafe, Bytes;
    EllipsisIsTitleChar();
    var collapsed := CollapseSpaces(ReplaceUnsafe(nfkc(message)));
    CollapsedIsTitleText(nfkc(message));
    TrimKeepsTitleChars(collapsed);
    var normalized := Trim(collapsed);
    if Bytes(normalized) > MAX_TITLE_BYTES {
      CutTitle(normalized, MAX_TITLE_BYTES - 3, '\U{2026}');
    }
  }
}
