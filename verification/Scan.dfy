/** Text scanners: `consume_until`, the trimming loops and case-insensitive comparison. */
module Scan {
  import opened Options

  // ----- consume_until, as a function -----

  /** The first token of the list, in list order, that `s` starts with. */
  function FirstToken(s: string, tokens: seq<string>): (r: Option<string>)
    ensures r.Some? ==> r.value in tokens && r.value <= s
  {
    if tokens == [] then None
    else if tokens[0] <= s then Some(tokens[0])
    else FirstToken(s, tokens[1..])
  }

  /** The text before the first match and the text left to read. The loop of the
      source stops at the end of the text, so not even an empty token matches there. */
  function Cut(s: string, tokens: seq<string>, consume: bool): Option<(string, string)> {
    if s == "" then None
    else match FirstToken(s, tokens)
      case Some(t) => Some(("", if consume then s[|t|..] else s))
      case None =>
        match Cut(s[1..], tokens, consume)
        case None => None
        case Some((before, after)) => Some(([s[0]] + before, after))
  }

  /** Cut at one token and drop it: the form most callers use. */
  function Until(s: string, token: string): Option<(string, string)> {
    Cut(s, [token], true)
  }

  /** The text after a token that is skipped if it is there. */
  function AfterToken(s: string, token: string): string {
    match Until(s, token) case None => s case Some((_, rest)) => rest
  }

  ghost predicate Occurs(token: string, s: string) {
    exists i :: 0 <= i < |s| && token <= s[i..]
  }

  // ----- consume_until, as the loop it is -----

  /** A cut of the rest of a text, seen from its start. */
  function Behind(front: string, cut: Option<(string, string)>): Option<(string, string)> {
    match cut case None => None case Some((before, after)) => Some((front + before, after))
  }

  lemma CutFromStart(s: string, tokens: seq<string>, consume: bool)
    ensures Behind("", Cut(s, tokens, consume)) == Cut(s, tokens, consume)
  {
    var cut := Cut(s, tokens, consume);
    assert cut.Some? ==> "" + cut.value.0 == cut.value.0;
  }

  lemma CutOneOn(front: string, c: string, tokens: seq<string>, consume: bool)
    requires c != "" && FirstToken(c, tokens).None?
    ensures Behind(front, Cut(c, tokens, consume)) == Behind(front + [c[0]], Cut(c[1..], tokens, consume))
  {
    var cut := Cut(c[1..], tokens, consume);
    assert cut.Some? ==> front + ([c[0]] + cut.value.0) == (front + [c[0]]) + cut.value.0;
  }

  lemma CutHere(front: string, c: string, tokens: seq<string>, consume: bool)
    requires c != "" && FirstToken(c, tokens).Some?
    ensures Behind(front, Cut(c, tokens, consume)) ==
      Some((front, if consume then c[|FirstToken(c, tokens).value|..] else c))
  {
    assert front + "" == front;
  }

  method ConsumeUntil(s: string, tokens: seq<string>, consumeTokens: bool)
    returns (r: Option<string>, rest: string)
    ensures r.None? <==> Cut(s, tokens, consumeTokens).None?
    ensures r.None? ==> rest == s
    ensures r.Some? ==> Cut(s, tokens, consumeTokens) == Some((r.value, rest))
  {
    var c := s;
    var consumed := 0;
    CutFromStart(s, tokens, consumeTokens);
    while c != ""
      invariant consumed <= |s| && c == s[consumed..]
      invariant Cut(s, tokens, consumeTokens) == Behind(s[..consumed], Cut(c, tokens, consumeTokens))
      decreases |c|
    {
      var i := 0;
      while i < |tokens|
        invariant i <= |tokens|
        invariant FirstToken(c, tokens) == FirstToken(c, tokens[i..])
      {
        if tokens[i] <= c {
          CutHere(s[..consumed], c, tokens, consumeTokens);
          if consumeTokens {
            c := c[|tokens[i]|..];
          }
          return Some(s[..consumed]), c;
        }
        i := i + 1;
      }
      CutOneOn(s[..consumed], c, tokens, consumeTokens);
      assert s[..consumed + 1] == s[..consumed] + [c[0]];
      consumed := consumed + 1;
      c := c[1..];
    }
    return None, s;
  }

  // ----- What the cut means -----

  /** Some token matches at position `p`. */
  ghost predicate MatchAt(s: string, tokens: seq<string>, p: nat)
    requires p <= |s|
  {
    exists t :: t in tokens && t <= s[p..]
  }

  /** The token chosen is the first of the list that matches. */
  lemma {:induction false} FirstTokenIsFirst(s: string, tokens: seq<string>)
    ensures var r := FirstToken(s, tokens);
      && (r.None? <==> forall t :: t in tokens ==> !(t <= s))
      && (r.Some? ==> exists k :: 0 <= k < |tokens| && tokens[k] == r.value &&
                                  forall j :: 0 <= j < k ==> !(tokens[j] <= s))
  {
    if tokens != [] && !(tokens[0] <= s) {
      FirstTokenIsFirst(s, tokens[1..]);
      assert tokens == [tokens[0]] + tokens[1..];
      var r := FirstToken(s, tokens[1..]);
      if r.Some? {
        var k :| 0 <= k < |tokens[1..]| && tokens[1..][k] == r.value &&
                 forall j :: 0 <= j < k ==> !(tokens[1..][j] <= s);
        forall j | 0 <= j < k + 1 ensures !(tokens[j] <= s) {
          if j > 0 { assert tokens[j] == tokens[1..][j - 1]; }
        }
        assert tokens[k + 1] == r.value;
      }
    }
  }

  lemma MatchAtIsFirstToken(s: string, tokens: seq<string>, p: nat)
    requires p <= |s|
    ensures MatchAt(s, tokens, p) <==> FirstToken(s[p..], tokens).Some?
  {
    FirstTokenIsFirst(s[p..], tokens);
  }

  lemma MatchAtShift(s: string, tokens: seq<string>, p: nat)
    requires p < |s|
    ensures MatchAt(s, tokens, p + 1) == MatchAt(s[1..], tokens, p)
  {
    assert s[p + 1..] == s[1..][p..];
  }

  /** No match up to `p`: none at the start, and none up to `p - 1` one character on. */
  lemma MissesOneOn(s: string, tokens: seq<string>, p: nat)
    requires 0 < p <= |s| && forall q :: 0 <= q < p ==> !MatchAt(s, tokens, q)
    ensures FirstToken(s, tokens).None? && forall q :: 0 <= q < p - 1 ==> !MatchAt(s[1..], tokens, q)
  {
    assert s[0..] == s;
    MatchAtIsFirstToken(s, tokens, 0);
    forall q | 0 <= q < p - 1 ensures !MatchAt(s[1..], tokens, q) {
      MatchAtShift(s, tokens, q);
    }
  }

  lemma SlicesOneOn(s: string, p: nat)
    requires 0 < p <= |s|
    ensures s[1..][p - 1..] == s[p..] && s[..p] == [s[0]] + s[1..][..p - 1]
  {
  }

  lemma {:induction false} CutHit(s: string, tokens: seq<string>, consume: bool, p: nat)
    requires p < |s| && FirstToken(s[p..], tokens).Some?
    requires forall q :: 0 <= q < p ==> !MatchAt(s, tokens, q)
    ensures Cut(s, tokens, consume) ==
      Some((s[..p], if consume then s[p..][|FirstToken(s[p..], tokens).value|..] else s[p..]))
  {
    if p == 0 {
      assert s[0..] == s;
    } else {
      MissesOneOn(s, tokens, p);
      SlicesOneOn(s, p);
      CutHit(s[1..], tokens, consume, p - 1);
    }
  }

  lemma {:induction false} CutMiss(s: string, tokens: seq<string>, consume: bool)
    requires forall q :: 0 <= q < |s| ==> !MatchAt(s, tokens, q)
    ensures Cut(s, tokens, consume).None?
  {
    if s == "" {
    } else {
      MissesOneOn(s, tokens, |s|);
      CutMiss(s[1..], tokens, consume);
    }
  }

  lemma {:induction false} EarliestMatch(s: string, tokens: seq<string>, p: nat) returns (least: nat)
    requires p < |s| && MatchAt(s, tokens, p)
    ensures least < |s| && MatchAt(s, tokens, least) && forall q :: 0 <= q < least ==> !MatchAt(s, tokens, q)
  {
    if q :| 0 <= q < p && MatchAt(s, tokens, q) {
      least := EarliestMatch(s, tokens, q);
    } else {
      least := p;
    }
  }

  /** `consume_until` finds the earliest position at which any token matches, takes the
      first matching token in list order, and splits the text exactly there; it finds
      nothing if and only if no token matches at any position of the text. */
  lemma CutIsEarliestMatch(s: string, tokens: seq<string>, consume: bool)
    ensures Cut(s, tokens, consume).None? <==> forall p :: 0 <= p < |s| ==> !MatchAt(s, tokens, p)
    ensures Cut(s, tokens, consume).Some? ==>
      var (before, after) := Cut(s, tokens, consume).value;
      && |before| < |s| && before == s[..|before|]
      && (forall p :: 0 <= p < |before| ==> !MatchAt(s, tokens, p))
      && FirstToken(s[|before|..], tokens).Some?
      && s == before + (if consume then FirstToken(s[|before|..], tokens).value else "") + after
  {
    if p :| 0 <= p < |s| && MatchAt(s, tokens, p) {
      var least := EarliestMatch(s, tokens, p);
      MatchAtIsFirstToken(s, tokens, least);
      CutHit(s, tokens, consume, least);
      HitPartitions(s, tokens, least);
    } else {
      CutMiss(s, tokens, consume);
    }
  }

  lemma HitPartitions(s: string, tokens: seq<string>, p: nat)
    requires p < |s| && FirstToken(s[p..], tokens).Some?
    ensures var t := FirstToken(s[p..], tokens).value;
      s == s[..p] + t + s[p..][|t|..] && s == s[..p] + "" + s[p..]
  {
    var t := FirstToken(s[p..], tokens).value;
    assert s[p..] == t + s[p..][|t|..];
  }

  // ----- Single tokens -----

  lemma UntilNone(s: string, token: string)
    ensures Until(s, token).None? <==> !Occurs(token, s)
  {
    CutIsEarliestMatch(s, [token], true);
    forall i | 0 <= i < |s| ensures MatchAt(s, [token], i) <==> token <= s[i..] {
      assert token in [token];
    }
  }

  lemma CutCharStep(s: string, c: char, consume: bool)
    requires s != ""
    ensures var r := Cut(s, [[c]], consume);
      if s[0] == c then r == Some(("", if consume then s[1..] else s))
      else var rest := Cut(s[1..], [[c]], consume);
        r == if rest.None? then None else Some(([s[0]] + rest.value.0, rest.value.1))
  {
    assert FirstToken(s, [[c]]) == if s[0] == c then Some([c]) else None;
  }

  lemma HeadAndRest(s: string)
    requires s != ""
    ensures s == [s[0]] + s[1..] && forall c :: c in s <==> c == s[0] || c in s[1..]
  {
  }

  lemma Prepend(c: char, a: string, b: string)
    ensures [c] + (a + b) == [c] + a + b
  {
  }

  /** Cutting at one character: found if and only if it occurs, and then at its first occurrence. */
  lemma {:induction false} CutChar(s: string, c: char, consume: bool)
    ensures var r := Cut(s, [[c]], consume);
      && (r.None? <==> c !in s)
      && (r.Some? ==> c !in r.value.0 &&
                      s == r.value.0 + (if consume then [c] + r.value.1 else r.value.1) &&
                      (!consume ==> r.value.1 != "" && r.value.1[0] == c))
  {
    if s == "" {
    } else {
      CutCharStep(s, c, consume);
      HeadAndRest(s);
      if s[0] != c {
        CutChar(s[1..], c, consume);
        var rest := Cut(s[1..], [[c]], consume);
        if rest.Some? {
          Prepend(s[0], rest.value.0, if consume then [c] + rest.value.1 else rest.value.1);
        }
      }
    }
  }

  lemma CutAtChar(s: string, c: char)
    ensures var r := Until(s, [c]);
      r.Some? ==> c !in r.value.0 && s == r.value.0 + [c] + r.value.1
  {
    CutChar(s, c, true);
    var r := Until(s, [c]);
    if r.Some? { assert r.value.0 + ([c] + r.value.1) == r.value.0 + [c] + r.value.1; }
  }

  lemma {:induction false} CutCharAt(x: string, c: char, y: string, consume: bool)
    requires c !in x
    ensures Cut(x + [c] + y, [[c]], consume) == Some((x, if consume then y else [c] + y))
  {
    var s := x + [c] + y;
    assert FirstToken(s, [[c]]) == if s[0] == c then Some([c]) else None;
    if x == "" {
      assert s == [c] + y;
    } else {
      assert s[1..] == x[1..] + [c] + y;
      CutCharAt(x[1..], c, y, consume);
      assert x == [x[0]] + x[1..];
    }
  }

  /** A token whose first character does not occur before it is found where it stands. */
  lemma {:induction false} UntilAt(x: string, token: string, y: string)
    requires token != "" && token[0] !in x
    ensures Until(x + token + y, token) == Some((x, y))
  {
    var s := x + token + y;
    assert FirstToken(s, [token]) == if token <= s then Some(token) else None;
    if x == "" {
      assert s == token + y;
    } else {
      assert s[0] == x[0];
      assert s[1..] == x[1..] + token + y;
      UntilAt(x[1..], token, y);
      assert x == [x[0]] + x[1..];
    }
  }

  /** A consuming cut leaves less text. */
  lemma {:induction false} CutShrinks(s: string, tokens: seq<string>)
    requires forall t :: t in tokens ==> t != ""
    ensures Cut(s, tokens, true).Some? ==> |Cut(s, tokens, true).value.1| < |s|
  {
    if s != "" && FirstToken(s, tokens).None? { CutShrinks(s[1..], tokens); }
  }

  const SCHEME_END := "://"

  /** The scheme delimiter cannot overlap itself: appending it creates no earlier occurrence. */
  lemma SchemeEndNoOverlap(x: string, y: string)
    requires x != "" && !(SCHEME_END <= x)
    ensures !(SCHEME_END <= x + SCHEME_END + y)
  {
    var s := x + SCHEME_END + y;
    assert s[|x|] == ':';
    assert |x| >= 3 ==> s[..3] == x[..3];
  }

  /** So cutting at its first occurrence gives back any left part that does not contain it. */
  lemma {:induction false} CutSchemeAt(x: string, y: string)
    requires !Occurs(SCHEME_END, x)
    ensures Until(x + SCHEME_END + y, SCHEME_END) == Some((x, y))
  {
    var s := x + SCHEME_END + y;
    assert FirstToken(s, [SCHEME_END]) == if SCHEME_END <= s then Some(SCHEME_END) else None;
    if x == "" {
      assert s == SCHEME_END + y;
    } else {
      assert x == x[0..];
      SchemeEndNoOverlap(x, y);
      forall i | 0 <= i < |x[1..]| ensures !(SCHEME_END <= x[1..][i..]) {
        assert x[1..][i..] == x[i + 1..];
      }
      assert s[1..] == x[1..] + SCHEME_END + y;
      CutSchemeAt(x[1..], y);
      assert x == [x[0]] + x[1..];
    }
  }

  /** What a found scheme delimiter says about the text. */
  lemma {:induction false} CutSchemeSplits(s: string)
    requires Until(s, SCHEME_END).Some?
    ensures var (x, y) := Until(s, SCHEME_END).value;
      s == x + SCHEME_END + y && !Occurs(SCHEME_END, x)
  {
    assert FirstToken(s, [SCHEME_END]) == if SCHEME_END <= s then Some(SCHEME_END) else None;
    if !(SCHEME_END <= s) {
      CutSchemeSplits(s[1..]);
      var (x', y) := Until(s[1..], SCHEME_END).value;
      var x := [s[0]] + x';
      assert s == [s[0]] + (x' + SCHEME_END + y) == x + SCHEME_END + y;
      forall i | 0 <= i < |x| ensures !(SCHEME_END <= x[i..]) {
        if i > 0 { assert x[i..] == x'[i - 1..]; }
      }
    }
  }

  // ----- Lines -----

  const EOL: seq<string> := ["\r\n", "\n"]

  function DropCarriageReturn(s: string): string {
    if s != "" && s[|s| - 1] == '\r' then s[..|s| - 1] else s
  }

  lemma FirstEol(s: string)
    requires s != ""
    ensures FirstToken(s, ["\n"]) == if s[0] == '\n' then Some("\n") else None
    ensures FirstToken(s, EOL) ==
      if |s| >= 2 && s[0] == '\r' && s[1] == '\n' then Some("\r\n") else if s[0] == '\n' then Some("\n") else None
  {
    assert EOL[1..] == ["\n"];
  }

  lemma DropAfter(c: char, b: string)
    requires c != '\n' && !(b == "" && c == '\r')
    ensures DropCarriageReturn([c] + b) == [c] + DropCarriageReturn(b)
  {
    assert b != "" ==> ([c] + b)[..|b|] == [c] + b[..|b| - 1];
  }

  lemma CutLineStep(s: string)
    requires s != "" && s[0] != '\n' && !(|s| >= 2 && s[0] == '\r' && s[1] == '\n')
    requires var n := Until(s[1..], "\n");
      Cut(s[1..], EOL, true) == if n.None? then None else Some((DropCarriageReturn(n.value.0), n.value.1))
    ensures var n := Until(s, "\n");
      Cut(s, EOL, true) == if n.None? then None else Some((DropCarriageReturn(n.value.0), n.value.1))
  {
    FirstEol(s);
    var n := Until(s[1..], "\n");
    if n.Some? {
      var (b, a) := n.value;
      assert b == "" ==> s[0] != '\r' by {
        CutChar(s[1..], '\n', true);
        assert s[1..] == b + (['\n'] + a);
        assert b == "" ==> s[1] == '\n';
      }
      DropAfter(s[0], b);
    }
  }

  /** The line reader in one sentence: cut at the first line feed, drop one carriage return before it. */
  lemma {:induction false} CutLine(s: string)
    ensures var n := Until(s, "\n");
      Cut(s, EOL, true) ==
        if n.None? then None else Some((DropCarriageReturn(n.value.0), n.value.1))
  {
    if s == "" {
    } else {
      FirstEol(s);
      if |s| >= 2 && s[0] == '\r' && s[1] == '\n' {
        FirstEol(s[1..]);
        assert Until(s[1..], "\n") == Some(("", s[1..][1..]));
        assert Until(s, "\n") == Some((['\r'] + "", s[2..]));
      } else if s[0] != '\n' {
        CutLine(s[1..]);
        CutLineStep(s);
      }
    }
  }

  // ----- Trimming -----

  /** The white space of the "C" locale. */
  predicate IsSpace(c: char) {
    c in {' ', '\t', '\n', '\U{0B}', '\U{0C}', '\r'}
  }

  function TrimPrefix(s: string): string {
    if s != "" && IsSpace(s[0]) then TrimPrefix(s[1..]) else s
  }

  function TrimSuffix(s: string): string {
    if s != "" && IsSpace(s[|s| - 1]) then TrimSuffix(s[..|s| - 1]) else s
  }

  function Trim(s: string): string {
    TrimSuffix(TrimPrefix(s))
  }

  method TrimSpacePrefix(s: string) returns (r: string)
    ensures r == TrimPrefix(s)
  {
    r := s;
    while r != "" && IsSpace(r[0])
      invariant TrimPrefix(r) == TrimPrefix(s)
      decreases |r|
    {
      r := r[1..];
    }
  }

  method TrimSpaceSuffix(s: string) returns (r: string)
    ensures r == TrimSuffix(s)
  {
    r := s;
    while r != "" && IsSpace(r[|r| - 1])
      invariant TrimSuffix(r) == TrimSuffix(s)
      decreases |r|
    {
      r := r[..|r| - 1];
    }
  }

  ghost predicate AllSpace(s: string) {
    forall i :: 0 <= i < |s| ==> IsSpace(s[i])
  }

  predicate Trimmed(s: string) {
    s == "" || (!IsSpace(s[0]) && !IsSpace(s[|s| - 1]))
  }

  lemma {:induction false} TrimPrefixSplits(s: string) returns (pre: string)
    ensures s == pre + TrimPrefix(s) && AllSpace(pre)
    ensures TrimPrefix(s) == "" || !IsSpace(TrimPrefix(s)[0])
  {
    if s != "" && IsSpace(s[0]) {
      var p := TrimPrefixSplits(s[1..]);
      pre := [s[0]] + p;
    } else {
      pre := "";
    }
  }

  lemma {:induction false} TrimSuffixSplits(s: string) returns (post: string)
    ensures s == TrimSuffix(s) + post && AllSpace(post)
    ensures TrimSuffix(s) == "" || !IsSpace(TrimSuffix(s)[|TrimSuffix(s)| - 1])
  {
    if s != "" && IsSpace(s[|s| - 1]) {
      var p := TrimSuffixSplits(s[..|s| - 1]);
      post := p + [s[|s| - 1]];
    } else {
      post := "";
    }
  }

  /** Trimming removes white space at both ends and nothing else. */
  lemma TrimSplits(s: string) returns (pre: string, post: string)
    ensures s == pre + Trim(s) + post && AllSpace(pre) && AllSpace(post) && Trimmed(Trim(s))
  {
    pre := TrimPrefixSplits(s);
    post := TrimSuffixSplits(TrimPrefix(s));
  }

  // ----- Case-insensitive comparison -----

  function Lower(c: char): char {
    if 'A' <= c <= 'Z' then c - 'A' + 'a' else c
  }

  predicate IEquals(a: string, b: string) {
    |a| == |b| && forall i :: 0 <= i < |a| ==> Lower(a[i]) == Lower(b[i])
  }

  predicate IStartsWith(s: string, prefix: string) {
    IEquals(if |s| < |prefix| then s else s[..|prefix|], prefix)
  }

  /** The same character, or the same Latin letter in its two cases. */
  predicate SameLetter(a: char, b: char) {
    || a == b
    || ('a' <= a <= 'z' && b as int == a as int - 32)
    || ('A' <= a <= 'Z' && b as int == a as int + 32)
  }

  predicate Alike(a: string, b: string) {
    |a| == |b| && forall i :: 0 <= i < |a| ==> SameLetter(a[i], b[i])
  }

  /** The comparison ignores the case of Latin letters, and nothing else. */
  lemma IEqualsExact(a: string, b: string)
    ensures IEquals(a, b) <==> Alike(a, b)
  {
    if |a| == |b| {
      forall i | 0 <= i < |a| ensures Lower(a[i]) == Lower(b[i]) <==> SameLetter(a[i], b[i]) {
        LowerExact(a[i], b[i]);
      }
    }
  }

  lemma LowerExact(a: char, b: char)
    ensures Lower(a) == Lower(b) <==> SameLetter(a, b)
  {
  }

  lemma IStartsWithExact(s: string, prefix: string)
    ensures IStartsWith(s, prefix) <==> |prefix| <= |s| && Alike(s[..|prefix|], prefix)
  {
    IEqualsExact(if |s| < |prefix| then s else s[..|prefix|], prefix);
  }

  lemma AlikeTransitive(a: string, b: string, c: string)
    requires Alike(a, c) && Alike(b, c)
    ensures Alike(a, b)
  {
    forall i | 0 <= i < |a| ensures SameLetter(a[i], b[i]) {
      assert SameLetter(a[i], c[i]) && SameLetter(b[i], c[i]);
    }
  }

  /** White space is the blank and the characters from tab to carriage return. */
  lemma SpaceExact(c: char)
    ensures IsSpace(c) <==> c as int == 32 || 9 <= c as int <= 13
  {
  }
}
