/** Splitting tag headers into tokens. */
module Tokens {
  import opened Bytes

  const MAX_TOKENS := 1000
  const COMMA: Byte := 44

  /** Blank, tab, carriage return, line feed and comma. */
  predicate IsSeparator(c: Byte) {
    c == 32 || c == 9 || c == 13 || c == 10 || c == COMMA
  }

  predicate HasSeparator(s: Str) {
    exists i :: 0 <= i < |s| && IsSeparator(s[i])
  }

  /** The maximal separator-free runs of value, the first one continuing `begun`. */
  function Split(value: Str, begun: Str): seq<Str>
    decreases |value|
  {
    if value == [] then (if begun == [] then [] else [begun])
    else if IsSeparator(value[0]) then (if begun == [] then [] else [begun]) + Split(value[1..], [])
    else Split(value[1..], begun + [value[0]])
  }

  function TokensOf(value: Str): seq<Str> {
    Split(value, [])
  }

  /** Reads one more token: the cap first, then the case-insensitive duplicates. */
  function Noted(tags: seq<Str>, token: Str): seq<Str> {
    if |tags| >= MAX_TOKENS || Seen(tags, token) then tags else tags + [token]
  }

  predicate Seen(tags: seq<Str>, token: Str) {
    exists i :: 0 <= i < |tags| && SameFolded(tags[i], token)
  }

  function NotedAll(tags: seq<Str>, tokens: seq<Str>): seq<Str>
    decreases |tokens|
  {
    if tokens == [] then tags else NotedAll(Noted(tags, tokens[0]), tokens[1..])
  }

  // ----- laws of splitting -----

  lemma {:induction false} SplitRun(run: Str, rest: Str, begun: Str)
    requires !HasSeparator(run) && (rest == [] || IsSeparator(rest[0])) && (run != [] || begun != [])
    ensures Split(run + rest, begun) == [begun + run] + Split(rest, [])
    decreases |run|
  {
    if run == [] {
      assert run + rest == rest && begun + run == begun;
    } else {
      assert (run + rest)[1..] == run[1..] + rest;
      assert forall i :: 0 <= i < |run[1..]| ==> run[1..][i] == run[i + 1];
      SplitRun(run[1..], rest, begun + [run[0]]);
      assert begun + [run[0]] + run[1..] == begun + run;
    }
  }

  lemma {:induction false} SplitJoin(a: Str, sep: Byte, b: Str, begun: Str)
    requires IsSeparator(sep)
    ensures Split(a + [sep] + b, begun) == Split(a, begun) + TokensOf(b)
    decreases |a|
  {
    if a == [] {
      assert (a + [sep] + b)[1..] == b;
    } else {
      assert (a + [sep] + b)[1..] == a[1..] + [sep] + b;
      SplitJoin(a[1..], sep, b, if IsSeparator(a[0]) then [] else begun + [a[0]]);
    }
  }

  /** These three laws determine the tokens of every value. */
  lemma TokenLaws(run: Str, a: Str, sep: Byte, b: Str)
    ensures TokensOf([]) == []
    ensures run != [] && !HasSeparator(run) ==> TokensOf(run) == [run]
    ensures IsSeparator(sep) ==> TokensOf(a + [sep] + b) == TokensOf(a) + TokensOf(b)
  {
    if run != [] && !HasSeparator(run) {
      SplitRun(run, [], []);
      assert run + [] == run && [] + run == run;
    }
    if IsSeparator(sep) {
      SplitJoin(a, sep, b, []);
    }
  }

  // ----- laws of noting -----

  lemma {:induction false} NotedAllConcat(tags: seq<Str>, a: seq<Str>, b: seq<Str>)
    ensures NotedAll(tags, a + b) == NotedAll(NotedAll(tags, a), b)
    decreases |a|
  {
    if a == [] {
      assert a + b == b;
    } else {
      assert (a + b)[1..] == a[1..] + b;
      NotedAllConcat(Noted(tags, a[0]), a[1..], b);
    }
  }

  lemma {:induction false} CapStops(tags: seq<Str>, tokens: seq<Str>)
    requires |tags| >= MAX_TOKENS
    ensures NotedAll(tags, tokens) == tags
    decreases |tokens|
  {
    if tokens != [] {
      CapStops(tags, tokens[1..]);
    }
  }

  lemma {:induction false} NotedGrows(tags: seq<Str>, tokens: seq<Str>)
    ensures |NotedAll(tags, tokens)| >= |tags| && NotedAll(tags, tokens)[..|tags|] == tags
    decreases |tokens|
  {
    if tokens != [] {
      var more := Noted(tags, tokens[0]);
      NotedGrows(more, tokens[1..]);
      assert NotedAll(more, tokens[1..])[..|tags|] == more[..|tags|];
    }
  }

  // ----- the loops of the sources -----

  /** The list `tags` can grow to `all` when the pool has memory for `room` elements. */
  predicate Fits(tags: seq<Str>, all: seq<Str>, room: nat) {
    all == tags || |all| <= room
  }

  /** push_unique, with a pool that has memory for `room` elements. */
  method PushUnique(tags: seq<Str>, token: Str, room: nat) returns (ok: bool, pushed: seq<Str>)
    ensures ok <==> token == [] || Seen(tags, token) || |tags| < room
    ensures pushed == if !ok || token == [] || Seen(tags, token) then tags else tags + [token]
  {
    if token == [] {
      return true, tags;
    }
    for i := 0 to |tags|
      invariant forall j :: 0 <= j < i ==> !SameFolded(tags[j], token)
    {
      if SameFolded(tags[i], token) {
        return true, tags;
      }
    }
    ok := |tags| < room;
    pushed := if ok then tags + [token] else tags;
  }

  lemma FirstToken(value: Str, start: nat, end: nat)
    requires start < end <= |value| && forall j :: start <= j < end ==> !IsSeparator(value[j])
    requires end == |value| || IsSeparator(value[end])
    ensures TokensOf(value[start..]) == [value[start..end]] + TokensOf(value[end..])
  {
    assert value[start..] == value[start..end] + value[end..];
    SplitRun(value[start..end], value[end..], []);
    assert [] + value[start..end] == value[start..end];
  }

  /** Fails exactly when the pool has no memory for the tokens that are new. */
  method ExtractTokens(value: Str, tags: seq<Str>, room: nat) returns (ok: bool, all: seq<Str>)
    ensures ok <==> Fits(tags, NotedAll(tags, TokensOf(value)), room)
    ensures ok ==> all == NotedAll(tags, TokensOf(value))
  {
    all := tags;
    var i := 0;
    assert value[i..] == value;
    while i < |value|
      invariant 0 <= i <= |value|
      invariant NotedAll(tags, TokensOf(value)) == NotedAll(all, TokensOf(value[i..]))
      invariant Fits(tags, all, room) && |all| >= |tags|
      decreases |value| - i
    {
      ghost var from := i;
      while i < |value| && IsSeparator(value[i])
        invariant from <= i <= |value|
        invariant TokensOf(value[from..]) == TokensOf(value[i..])
      {
        assert value[i..][1..] == value[i + 1..];
        i := i + 1;
      }
      var start := i;
      while i < |value| && !IsSeparator(value[i])
        invariant start <= i <= |value|
        invariant forall j :: start <= j < i ==> !IsSeparator(value[j])
      {
        i := i + 1;
      }
      if i > start {
        FirstToken(value, start, i);
        assert ([value[start..i]] + TokensOf(value[i..]))[1..] == TokensOf(value[i..]);
        if |all| >= MAX_TOKENS {
          CapStops(all, TokensOf(value[from..]));
          return true, all;
        }
        ghost var before := all;
        ok, all := PushUnique(all, value[start..i], room);
        if !ok {
          NotedGrows(before + [value[start..i]], TokensOf(value[i..]));
          return;
        }
      }
    }
    ok := true;
  }

  // ----- what the result means -----

  /** The tokens that differ, up to letter case, from all before them. */
  function FirstSpellings(tokens: seq<Str>): seq<Str> {
    if tokens == [] then []
    else
      var before := FirstSpellings(tokens[..|tokens| - 1]);
      if Seen(before, tokens[|tokens| - 1]) then before else before + [tokens[|tokens| - 1]]
  }

  function Capped(tags: seq<Str>): seq<Str> {
    if |tags| <= MAX_TOKENS then tags else tags[..MAX_TOKENS]
  }

  /** Extraction keeps the first thousand first spellings. */
  lemma {:induction false} NotedAreFirstSpellings(tokens: seq<Str>)
    ensures NotedAll([], tokens) == Capped(FirstSpellings(tokens))
  {
    if tokens != [] {
      var n := |tokens| - 1;
      NotedAreFirstSpellings(tokens[..n]);
      assert tokens == tokens[..n] + [tokens[n]];
      NotedAllConcat([], tokens[..n], [tokens[n]]);
      assert NotedAll(NotedAll([], tokens[..n]), [tokens[n]]) == Noted(NotedAll([], tokens[..n]), tokens[n]);
    }
  }

  /** A token is kept exactly when no earlier one is the same up to letter case;
      the kept ones differ pairwise, and none is lost but for a spelling. */
  lemma {:induction false} FirstSpellingsMeaning(tokens: seq<Str>, token: Str)
    ensures token in FirstSpellings(tokens) <==>
            exists i :: 0 <= i < |tokens| && tokens[i] == token && !Seen(tokens[..i], token)
    ensures Seen(FirstSpellings(tokens), token) <==> Seen(tokens, token)
    ensures var kept := FirstSpellings(tokens);
      forall i, j :: 0 <= i < j < |kept| ==> !SameFolded(kept[i], kept[j])
  {
    if tokens != [] {
      var n := |tokens| - 1;
      var init := tokens[..n];
      FirstSpellingsMeaning(init, token);
      FirstSpellingsMeaning(init, tokens[n]);
      SeenMore(init, tokens[n], token);
      SeenMore(FirstSpellings(init), tokens[n], token);
      SeenLike(FirstSpellings(init), tokens[n], token);
      assert init + [tokens[n]] == tokens;
      FirstsMore(tokens, token);
    }
  }

  lemma FirstsMore(tokens: seq<Str>, token: Str)
    requires tokens != []
    ensures var n := |tokens| - 1;
      (exists i :: 0 <= i < |tokens| && tokens[i] == token && !Seen(tokens[..i], token)) <==>
      (exists i :: 0 <= i < |tokens[..n]| && tokens[..n][i] == token && !Seen(tokens[..n][..i], token))
      || (tokens[n] == token && !Seen(tokens[..n], token))
  {
    var n := |tokens| - 1;
    forall i | 0 <= i < n ensures tokens[..n][..i] == tokens[..i] {
    }
    if i :| 0 <= i < |tokens[..n]| && tokens[..n][i] == token && !Seen(tokens[..n][..i], token) {
      assert tokens[i] == token && !Seen(tokens[..i], token);
    }
    if i :| 0 <= i < n && tokens[i] == token && !Seen(tokens[..i], token) {
      assert tokens[..n][i] == token && !Seen(tokens[..n][..i], token);
    }
  }

  lemma SeenMore(tags: seq<Str>, last: Str, token: Str)
    ensures Seen(tags + [last], token) <==> Seen(tags, token) || SameFolded(last, token)
  {
    if i :| 0 <= i < |tags| && SameFolded(tags[i], token) {
      assert SameFolded((tags + [last])[i], token);
    }
    if SameFolded(last, token) {
      assert SameFolded((tags + [last])[|tags|], token);
    }
  }

  lemma SeenLike(tags: seq<Str>, a: Str, b: Str)
    ensures SameFolded(a, b) && Seen(tags, a) ==> Seen(tags, b)
  {
    if SameFolded(a, b) && Seen(tags, a) {
      var i :| 0 <= i < |tags| && SameFolded(tags[i], a);
      assert SameFolded(tags[i], b);
    }
  }

  /** Two header lines index like one line with both values (section 5.3 of RFC
      9110), with the cap counting across the lines. */
  lemma LinesCombine(tags: seq<Str>, v1: Str, v2: Str)
    ensures NotedAll(NotedAll(tags, TokensOf(v1)), TokensOf(v2)) == NotedAll(tags, TokensOf(v1 + [COMMA] + v2))
  {
    SplitJoin(v1, COMMA, v2, []);
    NotedAllConcat(tags, TokensOf(v1), TokensOf(v2));
  }

  /** A tag in a second spelling is not kept, although tags are looked up byte for
      byte: a purge of that spelling will miss the file. */
  lemma LaterSpellingLost(token: Str, again: Str)
    requires token != [] && !HasSeparator(token) && !HasSeparator(again)
    requires SameFolded(token, again) && again != token
    ensures var kept := NotedAll([], TokensOf(token + [COMMA] + again));
      token in kept && again !in kept && Seen(kept, again)
  {
    assert again != [];
    TokenLaws(token, token, COMMA, again);
    TokenLaws(again, [], COMMA, []);
    var tokens := [token, again];
    assert TokensOf(token + [COMMA] + again) == tokens;
    assert tokens[1..] == [again] && [again][1..] == [];
    assert Noted([], token) == [token];
    assert SameFolded([token][0], again);
    assert Noted([token], again) == [token];
    assert NotedAll([token], []) == [token];
  }
}
