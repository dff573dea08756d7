/** What the comment-preserving editor asks of one line, and the value portion it replaces. */
module YamlLines {
  import opened Prelude
  import opened Text

  /** The bytes of leading white space. */
  function IndentOf(l: string): nat {
    ByteLen(l[..LeadLen(l)])
  }

  function StripQuotes(s: string, q: char): Option<string> {
    if |s| >= 2 && s[0] == q && s[|s| - 1] == q then Some(s[1..|s| - 1]) else None
  }

  /** The key before the first colon, trimmed and without one pair of quotes. */
  function KeyToken(raw: string): (r: Option<string>)
    ensures r.Some? ==> |r.value| + 1 <= |raw|
  {
    var i := IndexOf(raw, ':');
    if i == |raw| then None
    else
      var before := Trim(raw[..i]);
      match StripQuotes(before, '"')
      case Some(s) => Some(s)
      case None =>
        match StripQuotes(before, '\'')
        case Some(s) => Some(s)
        case None => Some(before)
  }

  function TrimStartChar(s: string, c: char): string {
    if s != "" && s[0] == c then TrimStartChar(s[1..], c) else s
  }

  predicate NothingButComment(rest: string) {
    TrimStart(rest) == "" || TrimStart(rest)[0] == '#'
  }

  /** Nothing but a comment follows the key's colon, so child lines may. */
  predicate OpensBlock(l: string) {
    var t := TrimStart(l);
    var i := IndexOf(t, ':');
    i == |t| || NothingButComment(t[i + 1..])
  }

  datatype Kind =
    | Blank
    | Comment(indent: nat, token: Option<string>)
    | Active(indent: nat, token: Option<string>, opens: bool)

  datatype Line = Line(text: string, kind: Kind)

  function KindOf(l: string): Kind {
    if IsBlank(l) then Blank
    else if IsComment(l) then Comment(IndentOf(l), KeyToken(TrimStart(TrimStartChar(TrimStart(l), '#'))))
    else Active(IndentOf(l), KeyToken(TrimStart(l)), OpensBlock(l))
  }

  function Read(text: string): Line {
    Line(text, KindOf(text))
  }

  // ---- what a line is, by its characters ----

  ghost predicate IsQuoted(t: string, q: char) {
    |t| >= 2 && t[0] == q && t[|t| - 1] == q
  }

  /** The key without one pair of quotes, if it has one. */
  ghost predicate Unquotes(t: string, key: string) {
    t == ['"'] + key + ['"'] || t == ['\''] + key + ['\''] || (t == key && !IsQuoted(t, '"') && !IsQuoted(t, '\''))
  }

  /** What stands before the first colon, trimmed and unquoted. */
  ghost predicate SpellsToken(raw: string, key: string) {
    exists n: nat, t: string :: n < |raw| && raw[n] == ':' && ':' !in raw[..n] && Trims(raw[..n], t) && Unquotes(t, key)
  }

  lemma StripIff(t: string, q: char, key: string)
    ensures StripQuotes(t, q) == Some(key) <==> t == [q] + key + [q]
    ensures StripQuotes(t, q).Some? <==> IsQuoted(t, q)
  {
    if t == [q] + key + [q] { assert t[1..|t| - 1] == key; }
  }

  lemma UnquotedIs(t: string, key: string)
    ensures Unquotes(t, key) <==>
            key == match StripQuotes(t, '"')
                   case Some(s) => s
                   case None => match StripQuotes(t, '\'') case Some(s) => s case None => t
  {
    hide StripQuotes;
    StripIff(t, '"', key);
    StripIff(t, '\'', key);
    if StripQuotes(t, '"').Some? { StripIff(t, '"', StripQuotes(t, '"').value); }
    if StripQuotes(t, '\'').Some? { StripIff(t, '\'', StripQuotes(t, '\'').value); }
  }

  /** A line's key is what its characters spell. */
  lemma TokenIff(raw: string, key: string)
    ensures KeyToken(raw) == Some(key) <==> SpellsToken(raw, key)
  {
    hide Trims, Trim, IndexOf, Unquotes, StripQuotes;
    var n := IndexOf(raw, ':');
    TrimIff(raw[..n], Trim(raw[..n]));
    UnquotedIs(Trim(raw[..n]), key);
    if SpellsToken(raw, key) {
      var m: nat, t: string :| m < |raw| && raw[m] == ':' && ':' !in raw[..m] && Trims(raw[..m], t) && Unquotes(t, key);
      assert forall k :: 0 <= k < m ==> raw[k] == raw[..m][k] && raw[..m][k] in raw[..m];
      IndexIs(raw, ':', m);
      TrimIff(raw[..m], t);
    }
  }

  /** White space and then something else. */
  ghost predicate StartsAt(l: string, i: nat) {
    i < |l| && !IsWhite(l[i]) && AllWhite(l[..i])
  }

  lemma StartsFact(l: string, i: nat)
    requires StartsAt(l, i)
    ensures TrimStart(l) == l[i..] && LeadLen(l) == i && !IsBlank(l)
  {
    hide IsWhite, TrimStart, Trim;
    assert forall k :: 0 <= k < i ==> l[k] == l[..i][k];
    TrimStartFrom(l, i);
    BlankIsAllWhite(l);
  }

  /** Blank, a comment or active, and how deep: the first character that is not white says it, and the bytes in
      front of it are the indentation. */
  lemma KindsAre(l: string)
    ensures KindOf(l).Blank? <==> AllWhite(l)
    ensures KindOf(l).Comment? <==> exists i: nat :: StartsAt(l, i) && l[i] == '#'
    ensures KindOf(l).Active? <==> exists i: nat :: StartsAt(l, i) && l[i] != '#'
    ensures forall i: nat :: StartsAt(l, i) ==> !KindOf(l).Blank? && KindOf(l).indent == ByteLen(l[..i])
  {
    hide IsWhite, TrimStart, Trim, KeyToken, ByteLen, AllWhite;
    BlankIsAllWhite(l);
    TrimStartFacts(l);
    forall i: nat | StartsAt(l, i)
      ensures TrimStart(l) == l[i..] && LeadLen(l) == i && !IsBlank(l)
    {
      StartsFact(l, i);
    }
    if !IsBlank(l) {
      var i := |l| - |TrimStart(l)|;
      assert l[i] == TrimStart(l)[0];
      assert StartsAt(l, i);
    }
  }

  ghost predicate HashesTo(l: string, i: nat, j: nat) {
    i < j <= |l| && (forall k :: i <= k < j ==> l[k] == '#') && (j < |l| ==> l[j] != '#')
  }

  /** The first colon at or after `i`. */
  ghost predicate FirstColonAt(l: string, i: nat, n: nat) {
    i <= n < |l| && l[n] == ':' && forall k :: i <= k < n ==> l[k] != ':'
  }

  /** No colon, or nothing but a comment behind the first one. */
  ghost predicate OpensAt(l: string, i: nat) {
    forall n: nat :: FirstColonAt(l, i, n) ==> OnlyComment(l[n + 1..])
  }

  /** An active line's key is the one it spells, and it opens a block when nothing but a comment follows its first
      colon. */
  lemma ActiveSays(l: string, i: nat)
    requires StartsAt(l, i) && l[i] != '#'
    ensures KindOf(l).Active? && KindOf(l).token == KeyToken(l[i..]) && (KindOf(l).opens <==> OpensAt(l, i))
  {
    hide IsWhite, TrimStart, Trim, KeyToken, ByteLen, AllWhite, TrimStartChar, OpensBlock, IndentOf, OpensAt, IsBlank,
         StartsAt;
    StartsInside(l, i);
    StartsFact(l, i);
    OpensSays(l, i);
  }

  /** A comment's key is the one spelled behind its hashes. */
  lemma CommentSays(l: string, i: nat, j: nat)
    requires StartsAt(l, i) && HashesTo(l, i, j)
    ensures KindOf(l).Comment? && KindOf(l).token == KeyToken(TrimStart(l[j..]))
  {
    hide IsWhite, TrimStart, Trim, KeyToken, ByteLen, AllWhite, TrimStartChar, OpensBlock, IndentOf, IsBlank, StartsAt;
    StartsInside(l, i);
    StartsFact(l, i);
    CharsTrimmed(l[i..], '#', j - i);
    assert l[i..][j - i..] == l[j..];
  }

  lemma StartsInside(l: string, i: nat)
    requires StartsAt(l, i)
    ensures i < |l| && l[i..] != "" && l[i..][0] == l[i]
  {
  }

  lemma {:induction false} CharsTrimmed(s: string, c: char, n: nat)
    requires n <= |s| && (forall k :: 0 <= k < n ==> s[k] == c) && (n < |s| ==> s[n] != c)
    ensures TrimStartChar(s, c) == s[n..]
  {
    if n > 0 {
      CharsTrimmed(s[1..], c, n - 1);
    }
  }

  ghost predicate OnlyComment(s: string) {
    AllWhite(s) || exists k: nat :: StartsAt(s, k) && s[k] == '#'
  }

  lemma OnlyCommentIff(s: string)
    ensures OnlyComment(s) <==> NothingButComment(s)
  {
    hide IsWhite, TrimStart, AllWhite;
    TrimStartFacts(s);
    forall k: nat | StartsAt(s, k)
      ensures TrimStart(s) == s[k..]
    {
      StartsFact(s, k);
    }
    if TrimStart(s) != "" {
      assert s[|s| - |TrimStart(s)|] == TrimStart(s)[0];
      assert StartsAt(s, |s| - |TrimStart(s)|);
    }
  }

  lemma ColonBelow(l: string, i: nat)
    requires i <= |l|
    ensures var m := IndexOf(l[i..], ':');
            forall n: nat :: FirstColonAt(l, i, n) <==> m < |l| - i && n == i + m
  {
    hide IndexOf;
    var t := l[i..];
    assert forall k :: i <= k < |l| ==> l[k] == t[k - i];
  }

  lemma OpensBy(l: string, t: string, m: nat)
    requires TrimStart(l) == t && m == IndexOf(t, ':')
    ensures m <= |t| && (OpensBlock(l) <==> m == |t| || OnlyComment(t[m + 1..]))
  {
    hide IsWhite, TrimStart, AllWhite, IndexOf, OnlyComment, NothingButComment;
    if m < |t| { OnlyCommentIff(t[m + 1..]); }
  }

  lemma OpensSays(l: string, i: nat)
    requires StartsAt(l, i)
    ensures OpensBlock(l) <==> OpensAt(l, i)
  {
    hide IsWhite, TrimStart, AllWhite, IndexOf, OnlyComment, FirstColonAt, OpensBlock;
    StartsFact(l, i);
    ColonBelow(l, i);
    var m := IndexOf(l[i..], ':');
    OpensBy(l, l[i..], m);
    if m < |l| - i {
      assert l[i..][m + 1..] == l[i + m + 1..] && FirstColonAt(l, i, i + m);
    }
  }

  // ---- the value portion ----

  /** What follows `last:` when the key is written in its plain form. */
  function AfterKey(l: string, last: string): string {
    var t := TrimStart(l);
    if |last| + 1 <= |t| then t[|last| + 1..] else ""
  }

  function TrimEndSpaces(s: string): (r: string)
    ensures |r| <= |s| && r == s[..|r|]
    ensures r != "" ==> r[|r| - 1] != ' '
  {
    if s != "" && s[|s| - 1] == ' ' then TrimEndSpaces(s[..|s| - 1]) else s
  }

  predicate HasQuote(s: string) {
    '"' in s || '\'' in s
  }

  /** An inline comment with the spaces before it, unless a quote comes first. */
  function Suffix(after: string): string {
    var h := IndexOf(after, '#');
    if h < |after| && h > 0 && after[h - 1] == ' ' && !HasQuote(after[..h])
    then after[|TrimEndSpaces(after[..h])|..]
    else ""
  }

  /** The first hash sign stands at `h`, behind spaces from `e` on and no quote at all. */
  ghost predicate IsInline(after: string, e: nat, h: nat) {
    && e < h < |after| && after[h] == '#' && '#' !in after[..h]
    && (forall i :: e <= i < h ==> after[i] == ' ') && (e > 0 ==> after[e - 1] != ' ')
    && (forall i :: 0 <= i < h ==> after[i] != '"' && after[i] != '\'')
  }

  lemma {:induction false} SpacesTrimmed(s: string, e: nat)
    requires e <= |s| && (forall i :: e <= i < |s| ==> s[i] == ' ') && (e > 0 ==> s[e - 1] != ' ')
    ensures TrimEndSpaces(s) == s[..e]
    decreases |s|
  {
    if e < |s| {
      SpacesTrimmed(s[..|s| - 1], e);
      assert s[..|s| - 1][..e] == s[..e];
    } else {
      assert s[..e] == s;
    }
  }

  /** An inline comment is what such a hash sign starts, with the spaces in front of it. */
  lemma SuffixIff(after: string, e: nat, h: nat)
    ensures IsInline(after, e, h) ==> Suffix(after) == after[e..]
    ensures Suffix(after) != "" ==> exists e: nat, h: nat :: IsInline(after, e, h)
  {
    hide TrimEndSpaces;
    var n := IndexOf(after, '#');
    assert forall i :: 0 <= i < n ==> after[..n][i] == after[i];
    if IsInline(after, e, h) {
      assert n == h by { assert forall i :: 0 <= i < h ==> after[..h][i] == after[i]; }
      SpacesTrimmed(after[..h], e);
    }
    if Suffix(after) != "" {
      var from := |TrimEndSpaces(after[..n])|;
      TrimEndSpacesFacts(after[..n]);
      SpacesBehind(after, from, n);
      assert IsInline(after, from, n);
    }
  }

  lemma SpacesBehind(after: string, e: nat, n: nat)
    requires e <= n <= |after| && AllSpaces(after[..n][e..])
    ensures forall i :: e <= i < n ==> after[i] == ' '
  {
    assert forall i :: e <= i < n ==> after[i] == after[..n][e..][i - e];
  }

  function WriteKey(prefix: string, key: string, rest: string): string {
    prefix + (key + ":" + rest)
  }

  function SetLine(l: string, last: string, value: string): string {
    WriteKey(l[..LeadLen(l)], last, " " + value + Suffix(AfterKey(l, last)))
  }

  /** The value a key line carries: the part `SetLine` replaces. */
  function ValueOf(l: string, last: string): string {
    var after := AfterKey(l, last);
    if |Suffix(after)| <= |after| then Trim(after[..|after| - |Suffix(after)|]) else ""
  }

  // ---- plain keys and values ----

  /** A key that reads back as itself when written without quotes. */
  predicate PlainKey(key: string) {
    && key != "" && ':' !in key && key[0] != '#'
    && !IsWhite(key[0]) && !IsWhite(key[|key| - 1])
    && StripQuotes(key, '"').None? && StripQuotes(key, '\'').None?
  }

  /** The value's own text starts an inline comment when it stands behind a space. */
  predicate StartsComment(value: string) {
    exists h :: 0 <= h < |value| && CommentAt(value, h)
  }

  predicate CommentAt(value: string, h: nat)
    requires h < |value|
  {
    value[h] == '#' && '#' !in value[..h] && !HasQuote(value[..h]) && (h == 0 || value[h - 1] == ' ')
  }

  /** Put in front of the inline comment `suffix`, the value leaves that comment to be found again. */
  predicate LeavesComment(value: string, suffix: string) {
    if suffix == "" then !StartsComment(value)
    else value != "" && value[|value| - 1] != ' ' && '#' !in value && !HasQuote(value)
  }

  predicate AllSpaces(s: string) {
    forall i :: 0 <= i < |s| ==> s[i] == ' '
  }

  /** Either no comment, or at least one space and a `#`. */
  predicate IsSuffix(s: string) {
    s == "" || exists n :: 0 < n < |s| && AllSpaces(s[..n]) && s[n] == '#'
  }

  lemma {:induction false} TrimEndSpacesFacts(s: string)
    ensures AllSpaces(s[|TrimEndSpaces(s)|..])
  {
    if s != "" && s[|s| - 1] == ' ' {
      var shorter := s[..|s| - 1];
      TrimEndSpacesFacts(shorter);
      assert s[|TrimEndSpaces(s)|..] == shorter[|TrimEndSpaces(s)|..] + [' '];
    }
  }

  lemma SuffixShape(after: string)
    ensures IsSuffix(Suffix(after))
    ensures |Suffix(after)| <= |after| && Suffix(after) == after[|after| - |Suffix(after)|..]
  {
    var h := IndexOf(after, '#');
    if Suffix(after) != "" {
      var t := TrimEndSpaces(after[..h]);
      assert after[..h][h - 1] == ' ';
      var n := h - |t|;
      assert 0 < n;
      var s := Suffix(after);
      TrimEndSpacesFacts(after[..h]);
      assert s[n] == '#';
      assert s[..n] == after[..h][|t|..];
    }
  }

  lemma {:induction false} TrimEndSpacesIs(s: string, n: nat)
    requires 0 < n <= |s| && s[n - 1] != ' '
    requires AllSpaces(s[n..])
    ensures TrimEndSpaces(s) == s[..n]
  {
    if n < |s| {
      assert s[n..][|s| - 1 - n] == ' ';
      var shorter := s[..|s| - 1];
      assert forall i :: 0 <= i < |shorter| - n ==> shorter[n..][i] == s[n..][i];
      TrimEndSpacesIs(shorter, n);
    }
  }

  lemma {:induction false} IndexIs(s: string, c: char, i: nat)
    requires i < |s| && s[i] == c && forall k :: 0 <= k < i ==> s[k] != c
    ensures IndexOf(s, c) == i
  {
    if i > 0 {
      IndexIs(s[1..], c, i - 1);
    }
  }

  lemma SpacedIndex(value: string)
    ensures var h := IndexOf(value, '#');
            IndexOf(" " + value, '#') == h + 1 && (" " + value)[..h + 1] == " " + value[..h]
  {
    assert (" " + value)[1..] == value;
  }

  lemma NoHashBefore(value: string)
    ensures '#' !in value[..IndexOf(value, '#')]
  {
  }

  /** With no comment on the line before, none is found afterwards unless the value starts one. */
  lemma BareComment(value: string)
    ensures Suffix(" " + value) == "" <==> !StartsComment(value)
  {
    var after, h := " " + value, IndexOf(value, '#');
    SpacedIndex(value);
    NoHashBefore(value);
    if h < |value| {
      assert after[h] == if h == 0 then ' ' else value[h - 1];
      assert HasQuote(after[..h + 1]) <==> HasQuote(value[..h]) by { QuoteBehindSpace(value[..h]); }
      assert forall k :: 0 <= k < |value| && k != h && CommentAt(value, k) ==> k < h || value[..k][h] == '#';
      assert StartsComment(value) <==> CommentAt(value, h);
    }
  }

  lemma QuoteBehindSpace(s: string)
    ensures HasQuote(" " + s) <==> HasQuote(s)
  {
    assert (" " + s)[1..] == s;
    assert forall c :: c in " " + s <==> c == ' ' || c in s;
  }

  /** A value put before the line's own comment leaves it exactly under that condition. */
  lemma SuffixKeptIff(value: string, suffix: string)
    requires IsSuffix(suffix)
    ensures Suffix(" " + value + suffix) == suffix <==> LeavesComment(value, suffix)
  {
    if suffix == "" {
      assert " " + value + suffix == " " + value;
      BareComment(value);
    } else {
      if LeavesComment(value, suffix) { SuffixAfterValue(value, suffix); }
      if Suffix(" " + value + suffix) == suffix { ValueBeforeSuffix(value, suffix); }
    }
  }

  lemma SuffixAfterValue(value: string, suffix: string)
    requires IsSuffix(suffix) && suffix != "" && LeavesComment(value, suffix)
    ensures Suffix(" " + value + suffix) == suffix
  {
    var after := " " + value + suffix;
    var n :| 0 < n < |suffix| && AllSpaces(suffix[..n]) && suffix[n] == '#';
    var m := 1 + |value| + n;
    forall i | 0 <= i < m
      ensures after[i] != '#' && (i > |value| ==> after[i] == ' ')
    {
      if i > |value| { assert after[i] == suffix[..n][i - 1 - |value|]; }
    }
    IndexIs(after, '#', m);
    var head := after[..m];
    NoQuoteInHead(value, suffix[..n]);
    assert head == " " + value + suffix[..n];
    assert head[|value|] == value[|value| - 1];
    assert forall i :: 0 <= i < n ==> head[1 + |value|..][i] == suffix[..n][i];
    TrimEndSpacesIs(head, 1 + |value|);
    assert after[1 + |value|..] == suffix;
  }

  lemma NoQuoteInHead(value: string, spaces: string)
    requires !HasQuote(value) && AllSpaces(spaces)
    ensures !HasQuote(" " + value + spaces)
  {
    assert forall c :: c in " " + value + spaces <==> c == ' ' || c in value || c in spaces;
  }

  lemma ValueBeforeSuffix(value: string, suffix: string)
    requires suffix != "" && Suffix(" " + value + suffix) == suffix
    ensures LeavesComment(value, suffix)
  {
    var after := " " + value + suffix;
    var h := IndexOf(after, '#');
    var t := TrimEndSpaces(after[..h]);
    assert |t| == 1 + |value|;
    assert t[|value|] == after[|value|];
    assert forall k :: 0 <= k < |value| ==> after[..h][k + 1] == value[k];
    assert forall c :: c in value ==> c in after[..h];
  }

  // ---- lines the editor writes ----

  lemma {:induction false} TrimStartIs(prefix: string, body: string)
    requires AllWhite(prefix) && body != "" && !IsWhite(body[0])
    ensures TrimStart(prefix + body) == body
    ensures LeadLen(prefix + body) == |prefix| && (prefix + body)[..|prefix|] == prefix
  {
    if prefix == "" {
      assert prefix + body == body;
    } else {
      assert (prefix + body)[1..] == prefix[1..] + body;
      TrimStartIs(prefix[1..], body);
    }
  }

  lemma LeadIsWhite(l: string)
    ensures AllWhite(l[..LeadLen(l)])
    ensures l == l[..LeadLen(l)] + TrimStart(l)
  {
    hide IsWhite, AllWhite, TrimStart;
    TrimStartFacts(l);
  }

  lemma ColonAt(key: string, rest: string)
    requires PlainKey(key)
    ensures IndexOf(key + ":" + rest, ':') == |key|
  {
    var raw := key + ":" + rest;
    assert raw[|key|] == ':';
    assert forall i :: 0 <= i < |key| ==> raw[i] == key[i] && key[i] in key;
  }

  lemma KeyTokenOfPlain(key: string, rest: string)
    requires PlainKey(key)
    ensures KeyToken(key + ":" + rest) == Some(key)
  {
    var raw := key + ":" + rest;
    ColonAt(key, rest);
    assert raw[..|key|] == key;
    TrimmedAlready(key);
  }

  lemma OpensIffComment(l: string, key: string, rest: string)
    requires PlainKey(key) && TrimStart(l) == key + ":" + rest
    ensures OpensBlock(l) <==> NothingButComment(rest)
    ensures AfterKey(l, key) == rest
  {
    ColonAt(key, rest);
    assert TrimStart(l)[|key| + 1..] == rest;
  }

  lemma KindIs(l: string)
    requires TrimStart(l) != "" && TrimStart(l)[0] != '#'
    ensures KindOf(l) == Active(IndentOf(l), KeyToken(TrimStart(l)), OpensBlock(l))
  {
    BlankIsAllWhite(l);
  }

  /** An active line, at the indentation of its prefix, with the key written plainly. */
  lemma KeyLineKind(prefix: string, key: string, rest: string)
    requires AllWhite(prefix) && PlainKey(key)
    ensures var l := WriteKey(prefix, key, rest);
            && KindOf(l) == Active(ByteLen(prefix), Some(key), NothingButComment(rest))
            && l[..LeadLen(l)] == prefix
            && AfterKey(l, key) == rest
  {
    var l := WriteKey(prefix, key, rest);
    TrimStartIs(prefix, key + ":" + rest);
    KindIs(l);
    KeyTokenOfPlain(key, rest);
    OpensIffComment(l, key, rest);
  }

  lemma PutShape(l: string, last: string, value: string)
    requires PlainKey(last)
    ensures var put, rest := SetLine(l, last, value), " " + value + Suffix(AfterKey(l, last));
            && KindOf(put) == Active(IndentOf(l), Some(last), NothingButComment(rest))
            && put[..LeadLen(put)] == l[..LeadLen(l)]
            && AfterKey(put, last) == rest
  {
    LeadIsWhite(l);
    KeyLineKind(l[..LeadLen(l)], last, " " + value + Suffix(AfterKey(l, last)));
    hide Suffix, AfterKey, KindOf, NothingButComment, LeadLen, WriteKey;
  }

  lemma ValueIs(l: string, last: string, value: string, suffix: string)
    requires AfterKey(l, last) == " " + value + suffix && Suffix(AfterKey(l, last)) == suffix
    ensures ValueOf(l, last) == Trim(value)
  {
    hide Suffix, AfterKey, Trim;
    SpacedFacts(value, suffix);
    TrimOfSpaced(value);
  }

  /** Putting a value: the line keeps its indentation and its key, keeps its inline comment exactly when the
      value leaves it one, and then reads back as carrying the value without outer white space. */
  lemma SetLineLaws(l: string, last: string, value: string)
    requires PlainKey(last)
    ensures var put, suffix := SetLine(l, last, value), Suffix(AfterKey(l, last));
            && KindOf(put) == Active(IndentOf(l), Some(last), NothingButComment(" " + value + suffix))
            && put[..LeadLen(put)] == l[..LeadLen(l)]
            && (Suffix(AfterKey(put, last)) == suffix <==> LeavesComment(value, suffix))
            && (LeavesComment(value, suffix) ==> ValueOf(put, last) == Trim(value))
  {
    hide Suffix, AfterKey, LeavesComment, KindOf, NothingButComment, IsSuffix, LeadLen, Trim, SetLine, ValueOf;
    PutShape(l, last, value);
    SuffixShape(AfterKey(l, last));
    SuffixKeptIff(value, Suffix(AfterKey(l, last)));
    if LeavesComment(value, Suffix(AfterKey(l, last))) {
      ValueIs(SetLine(l, last, value), last, value, Suffix(AfterKey(l, last)));
    }
  }

  lemma SpacedFacts(value: string, suffix: string)
    ensures " " + value + suffix == " " + (value + suffix)
    ensures (" " + value + suffix)[..|" " + value + suffix| - |suffix|] == " " + value
  {
  }

  lemma {:induction false} TrimOfSpaced(value: string)
    ensures Trim(" " + value) == Trim(value)
  {
    var s := " " + value;
    if value != "" && IsWhite(value[|value| - 1]) {
      var shorter := value[..|value| - 1];
      assert s[..|s| - 1] == " " + shorter;
      TrimOfSpaced(shorter);
    } else if value != "" {
      assert s[1..] == value;
    } else {
      assert s[..0] == "" && TrimEnd("") == "" && TrimStart("") == "";
    }
  }

  /** The second of two puts leaves no trace of the first exactly when the first left the line its comment. */
  lemma PutPutIff(l: string, last: string, first: string, second: string)
    requires PlainKey(last)
    ensures SetLine(SetLine(l, last, first), last, second) == SetLine(l, last, second) <==>
            LeavesComment(first, Suffix(AfterKey(l, last)))
  {
    var put := SetLine(l, last, first);
    SetLineLaws(l, last, first);
    hide Suffix, AfterKey, LeavesComment, KindOf;
    SameLineIff(l[..LeadLen(l)], last, second, Suffix(AfterKey(put, last)), Suffix(AfterKey(l, last)));
  }

  lemma SameLineIff(prefix: string, last: string, value: string, a: string, b: string)
    ensures WriteKey(prefix, last, " " + value + a) == WriteKey(prefix, last, " " + value + b) <==> a == b
  {
    var n := |prefix| + |last| + |value| + 2;
    assert WriteKey(prefix, last, " " + value + a)[n..] == a;
    assert WriteKey(prefix, last, " " + value + b)[n..] == b;
  }

  function Spaces(n: nat): string {
    seq(n, _ => ' ')
  }

  lemma {:induction false} SpacesBytes(n: nat)
    ensures ByteLen(Spaces(n)) == n
  {
    if n > 0 {
      SpacesBytes(n - 1);
      assert Spaces(n)[1..] == Spaces(n - 1);
    }
  }

  function KeyLine(indent: nat, key: string, value: string): string {
    WriteKey(Spaces(indent), key, " " + value)
  }

  lemma KeyLineParts(indent: nat, key: string, value: string)
    requires PlainKey(key)
    ensures var l := KeyLine(indent, key, value);
            && KindOf(l) == Active(indent, Some(key), NothingButComment(" " + value))
            && l[..LeadLen(l)] == Spaces(indent)
            && AfterKey(l, key) == " " + value
  {
    KeyLineKind(Spaces(indent), key, " " + value);
    SpacesBytes(indent);
  }

  /** A line the editor adds carries its value, and putting the same value again changes nothing, exactly
      when the value starts no comment. */
  lemma KeyLineLaws(indent: nat, key: string, value: string)
    requires PlainKey(key)
    ensures KindOf(KeyLine(indent, key, value)) == Active(indent, Some(key), NothingButComment(" " + value))
    ensures !StartsComment(value) ==> ValueOf(KeyLine(indent, key, value), key) == Trim(value)
    ensures SetLine(KeyLine(indent, key, value), key, value) == KeyLine(indent, key, value) <==> !StartsComment(value)
  {
    hide Suffix, StartsComment, NothingButComment, KindOf, Trim, AfterKey, LeadLen, KeyLine, ValueOf;
    KeyLineParts(indent, key, value);
    BareComment(value);
    var l := KeyLine(indent, key, value);
    NoSuffix(value);
    if !StartsComment(value) { ValueIs(l, key, value, ""); }
    KeyLineIs(indent, key, value);
    SameLineIff(Spaces(indent), key, value, Suffix(" " + value), "");
  }

  lemma NoSuffix(value: string)
    ensures " " + value + "" == " " + value
  {
  }

  lemma KeyLineIs(indent: nat, key: string, value: string)
    ensures KeyLine(indent, key, value) == WriteKey(Spaces(indent), key, " " + value + "")
  {
    NoSuffix(value);
  }

  lemma HeaderLineKind(key: string)
    requires PlainKey(key)
    ensures KindOf(key + ":") == Active(0, Some(key), true)
  {
    assert key + ":" == WriteKey("", key, "");
    KeyLineKind("", key, "");
  }
}
