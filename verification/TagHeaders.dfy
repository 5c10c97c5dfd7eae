/** The tags that a request or a response names in its configured headers. */
module TagHeaders {
  import opened Bytes
  import opened Tokens

  datatype Header = Header(name: Str, value: Str)

  /** The tokens of all values of the wanted headers, in the order of the headers. */
  function TokensIn(headers: seq<Header>, wanted: seq<Str>): seq<Str> {
    if headers == [] then []
    else
      var last := headers[|headers| - 1];
      TokensIn(headers[..|headers| - 1], wanted) + Repeated(TokensOf(last.value), last.name, wanted)
  }

  /** The tokens, once for each wanted header with that name. */
  function Repeated(tokens: seq<Str>, name: Str, wanted: seq<Str>): seq<Str> {
    if wanted == [] then []
    else Repeated(tokens, name, wanted[..|wanted| - 1]) + if SameFolded(name, wanted[|wanted| - 1]) then tokens else []
  }

  function TagsIn(headers: seq<Header>, wanted: seq<Str>): seq<Str> {
    NotedAll([], TokensIn(headers, wanted))
  }

  lemma {:induction false} RepeatedSplit(tokens: seq<Str>, name: Str, wanted: seq<Str>, j: nat) returns (rest: seq<Str>)
    requires j <= |wanted|
    ensures Repeated(tokens, name, wanted) == Repeated(tokens, name, wanted[..j]) + rest
  {
    if j == |wanted| {
      assert wanted[..j] == wanted;
      rest := [];
    } else {
      var init := wanted[..|wanted| - 1];
      assert init[..j] == wanted[..j];
      var before := RepeatedSplit(tokens, name, init, j);
      rest := before + if SameFolded(name, wanted[|wanted| - 1]) then tokens else [];
    }
  }

  lemma {:induction false} TokensInSplit(headers: seq<Header>, wanted: seq<Str>, i: nat) returns (rest: seq<Str>)
    requires i <= |headers|
    ensures TokensIn(headers, wanted) == TokensIn(headers[..i], wanted) + rest
  {
    if i == |headers| {
      assert headers[..i] == headers;
      rest := [];
    } else {
      var init := headers[..|headers| - 1];
      assert init[..i] == headers[..i];
      var before := TokensInSplit(init, wanted, i);
      var last := headers[|headers| - 1];
      rest := before + Repeated(TokensOf(last.value), last.name, wanted);
    }
  }

  /** What did not fit after the first tokens does not fit after more of them. */
  lemma StillTooMany(tags: seq<Str>, some: seq<Str>, rest: seq<Str>, room: nat)
    requires |NotedAll(tags, some)| > room && |NotedAll(tags, some)| > |tags|
    ensures |NotedAll(tags, some + rest)| > room && !Fits(tags, NotedAll(tags, some + rest), room)
  {
    NotedAllConcat(tags, some, rest);
    NotedGrows(NotedAll(tags, some), rest);
  }

  /** One header against all configured names, without a stop at the first match. */
  method TakeHeader(h: Header, wanted: seq<Str>, tags: seq<Str>, room: nat) returns (ok: bool, all: seq<Str>)
    ensures ok <==> Fits(tags, NotedAll(tags, Repeated(TokensOf(h.value), h.name, wanted)), room)
    ensures ok ==> all == NotedAll(tags, Repeated(TokensOf(h.value), h.name, wanted))
  {
    all := tags;
    var tokens := TokensOf(h.value);
    for j := 0 to |wanted|
      invariant all == NotedAll(tags, Repeated(tokens, h.name, wanted[..j])) && Fits(tags, all, room)
    {
      assert wanted[..j + 1][..j] == wanted[..j];
      var repeated := Repeated(tokens, h.name, wanted[..j]);
      if |h.name| != |wanted[j]| || !SameFolded(h.name, wanted[j]) {
        assert repeated + [] == repeated;
        continue;
      }
      NotedAllConcat(tags, repeated, tokens);
      NotedGrows(tags, repeated);
      NotedGrows(all, tokens);
      ok, all := ExtractTokens(h.value, all, room);
      if !ok {
        ghost var rest := RepeatedSplit(tokens, h.name, wanted, j + 1);
        StillTooMany(tags, Repeated(tokens, h.name, wanted[..j + 1]), rest, room);
        return;
      }
    }
    assert wanted[..|wanted|] == wanted;
    ok := true;
  }

  /** ngx_http_cache_index_request_headers for a location that is enabled. The pool
      grants `pool` requests, one for the list and one for each of its elements. */
  method RequestHeaders(headers: seq<Header>, wanted: seq<Str>, pool: nat) returns (ok: bool, tags: seq<Str>)
    ensures ok <==> |TagsIn(headers, wanted)| < pool
    ensures ok ==> tags == TagsIn(headers, wanted)
  {
    tags := [];
    if pool == 0 {
      return false, tags;
    }
    for i := 0 to |headers|
      invariant tags == TagsIn(headers[..i], wanted) && |tags| < pool
    {
      assert headers[..i + 1][..i] == headers[..i];
      NotedAllConcat([], TokensIn(headers[..i], wanted), Repeated(TokensOf(headers[i].value), headers[i].name, wanted));
      NotedGrows(tags, Repeated(TokensOf(headers[i].value), headers[i].name, wanted));
      ok, tags := TakeHeader(headers[i], wanted, tags, pool - 1);
      if !ok {
        ghost var rest := TokensInSplit(headers, wanted, i + 1);
        StillTooMany([], TokensIn(headers[..i + 1], wanted), rest, pool - 1);
        return;
      }
    }
    assert headers[..|headers|] == headers;
    ok := true;
  }

  // ----- the mode header -----

  const SOFT: Str := [115, 111, 102, 116]
  const TRUE: Str := [116, 114, 117, 101]

  /** 1, soft or true, the words in any case. */
  predicate SaysSoft(value: Str) {
    value == [49] || SameFolded(value, SOFT) || SameFolded(value, TRUE)
  }

  function ModeOf(headers: seq<Header>, name: Str, soft: bool): bool {
    if name == [] || headers == [] then soft
    else if SameFolded(headers[0].name, name) then SaysSoft(headers[0].value)
    else ModeOf(headers[1..], name, soft)
  }

  /** The first mode header decides, whatever it says; without one the default does. */
  lemma {:induction false} FirstModeDecides(headers: seq<Header>, name: Str, soft: bool, i: nat)
    requires name != []
    ensures i < |headers| && SameFolded(headers[i].name, name)
            && (forall j :: 0 <= j < i ==> !SameFolded(headers[j].name, name)) ==>
              ModeOf(headers, name, soft) == SaysSoft(headers[i].value)
    ensures (forall j :: 0 <= j < |headers| ==> !SameFolded(headers[j].name, name)) ==> ModeOf(headers, name, soft) == soft
    decreases |headers|
  {
    if headers != [] && !SameFolded(headers[0].name, name) {
      var rest := headers[1..];
      FirstModeDecides(rest, name, soft, if i == 0 then 0 else i - 1);
      assert forall j :: 0 <= j < |rest| ==> rest[j] == headers[j + 1];
    }
  }

  /** ngx_http_cache_pilot_request_mode. */
  method RequestMode(headers: seq<Header>, name: Str, soft: bool) returns (mode: bool)
    ensures mode == ModeOf(headers, name, soft)
  {
    if name == [] {
      return soft;
    }
    assert headers[0..] == headers;
    for i := 0 to |headers|
      invariant ModeOf(headers, name, soft) == ModeOf(headers[i..], name, soft)
    {
      assert headers[i..][1..] == headers[i + 1..];
      if |headers[i].name| != |name| || !SameFolded(headers[i].name, name) {
        continue;
      }
      var v := headers[i].value;
      return (|v| == 1 && v[0] == 49) || (|v| == 4 && SameFolded(v, SOFT)) || (|v| == 4 && SameFolded(v, TRUE));
    }
    return soft;
  }

  // ----- laws -----

  /** Noting the same tokens again adds nothing. */
  lemma {:induction false} NotedAgain(tags: seq<Str>, again: seq<Str>)
    requires forall i :: 0 <= i < |again| ==> Seen(tags, again[i]) || |tags| >= MAX_TOKENS
    ensures NotedAll(tags, again) == tags
    decreases |again|
  {
    if again != [] {
      NotedAgain(tags, again[1..]);
    }
  }

  /** After noting, every token was seen, or the list is full. */
  lemma {:induction false} NotedSeen(tags: seq<Str>, tokens: seq<Str>)
    ensures var all := NotedAll(tags, tokens);
      && |all| >= |tags| && all[..|tags|] == tags
      && forall i :: 0 <= i < |tokens| ==> Seen(all, tokens[i]) || |all| >= MAX_TOKENS
    decreases |tokens|
  {
    if tokens != [] {
      var more := Noted(tags, tokens[0]);
      NotedSeen(more, tokens[1..]);
      var all := NotedAll(more, tokens[1..]);
      assert all[..|tags|] == more[..|tags|];
      if |tags| < MAX_TOKENS {
        if !Seen(tags, tokens[0]) { assert SameFolded(more[|tags|], tokens[0]); }
        var j :| 0 <= j < |more| && SameFolded(more[j], tokens[0]);
        assert all[j] == more[j];
      }
    }
  }

  /** How often a header is configured does not matter, only whether it is. */
  lemma {:induction false} RepeatedOnce(tags: seq<Str>, tokens: seq<Str>, name: Str, wanted: seq<Str>)
    ensures NotedAll(tags, Repeated(tokens, name, wanted)) == if Wants(wanted, name) then NotedAll(tags, tokens) else tags
  {
    if wanted != [] {
      var n := |wanted| - 1;
      RepeatedOnce(tags, tokens, name, wanted[..n]);
      var before := Repeated(tokens, name, wanted[..n]);
      WantsMore(wanted, name);
      if SameFolded(name, wanted[n]) {
        NotedAllConcat(tags, before, tokens);
        if Wants(wanted[..n], name) {
          NotedSeen(tags, tokens);
          NotedAgain(NotedAll(tags, tokens), tokens);
        }
      } else {
        assert before + [] == before;
      }
    }
  }

  predicate Wants(wanted: seq<Str>, name: Str) {
    exists j :: 0 <= j < |wanted| && SameFolded(name, wanted[j])
  }

  lemma WantsMore(wanted: seq<Str>, name: Str)
    requires wanted != []
    ensures Wants(wanted, name) <==> Wants(wanted[..|wanted| - 1], name) || SameFolded(name, wanted[|wanted| - 1])
  {
    var n := |wanted| - 1;
    if j :| 0 <= j < |wanted| && SameFolded(name, wanted[j]) {
      if j < n { assert SameFolded(name, wanted[..n][j]); }
    }
    if j :| 0 <= j < n && SameFolded(name, wanted[..n][j]) {
      assert SameFolded(name, wanted[j]);
    }
  }

  /** The tags of a header list, one header at a time. */
  lemma TagsOfLast(headers: seq<Header>, h: Header, wanted: seq<Str>)
    ensures TagsIn(headers + [h], wanted)
         == if Wants(wanted, h.name) then NotedAll(TagsIn(headers, wanted), TokensOf(h.value)) else TagsIn(headers, wanted)
  {
    assert (headers + [h])[..|headers|] == headers;
    NotedAllConcat([], TokensIn(headers, wanted), Repeated(TokensOf(h.value), h.name, wanted));
    RepeatedOnce(TagsIn(headers, wanted), TokensOf(h.value), h.name, wanted);
  }

  /** A header split over two lines gives the same tags as one line with both values
      and a comma (section 5.3 of RFC 9110), whatever the other headers are. */
  lemma {:induction false} SplitLinesAlike(before: seq<Header>, name: Str, name': Str, v1: Str, v2: Str,
      after: seq<Header>, wanted: seq<Str>)
    requires SameFolded(name, name')
    ensures TagsIn(before + [Header(name, v1), Header(name', v2)] + after, wanted)
         == TagsIn(before + [Header(name, v1 + [COMMA] + v2)] + after, wanted)
    decreases |after|
  {
    var two := before + [Header(name, v1), Header(name', v2)];
    var one := before + [Header(name, v1 + [COMMA] + v2)];
    if after == [] {
      assert two + [] == before + [Header(name, v1)] + [Header(name', v2)] && one + [] == one;
      TagsOfLast(before + [Header(name, v1)], Header(name', v2), wanted);
      TagsOfLast(before, Header(name, v1), wanted);
      TagsOfLast(before, Header(name, v1 + [COMMA] + v2), wanted);
      WantsAlike(wanted, name, name');
      LinesCombine(TagsIn(before, wanted), v1, v2);
    } else {
      var n := |after| - 1;
      SplitLinesAlike(before, name, name', v1, v2, after[..n], wanted);
      assert two + after == two + after[..n] + [after[n]] && one + after == one + after[..n] + [after[n]];
      TagsOfLast(two + after[..n], after[n], wanted);
      TagsOfLast(one + after[..n], after[n], wanted);
    }
  }

  lemma WantsAlike(wanted: seq<Str>, name: Str, name': Str)
    requires SameFolded(name, name')
    ensures Wants(wanted, name) <==> Wants(wanted, name')
  {
    forall j | 0 <= j < |wanted| ensures SameFolded(name, wanted[j]) <==> SameFolded(name', wanted[j]) {
      if SameFolded(name, wanted[j]) || SameFolded(name', wanted[j]) {
        assert forall i :: 0 <= i < |name| ==> Lower(name[i]) == Lower(name'[i]);
      }
    }
  }

  // ----- the check that all locations of a zone configure the same headers -----

  predicate Included(left: seq<Str>, right: seq<Str>) {
    forall i :: 0 <= i < |left| ==> Wants(right, left[i])
  }

  /** headers_equal: no headers at all equal only themselves. */
  method HeadersEqual(left: Option<seq<Str>>, right: Option<seq<Str>>) returns (equal: bool)
    ensures left.Some? && right.Some? ==> (equal <==> |left.value| == |right.value| && Included(left.value, right.value))
    ensures left.None? || right.None? ==> (equal <==> left == right)
  {
    if left.None? || right.None? {
      return left == right;
    }
    var l, r := left.value, right.value;
    if |l| != |r| {
      return false;
    }
    for i := 0 to |l|
      invariant forall k :: 0 <= k < i ==> Wants(r, l[k])
    {
      var found := false;
      for j := 0 to |r|
        invariant !found && forall k :: 0 <= k < j ==> !SameFolded(l[i], r[k])
      {
        if |l[i]| == |r[j]| && SameFolded(l[i], r[j]) {
          found := true;
          break;
        }
      }
      if !found {
        return false;
      }
    }
    return true;
  }

  function Fold(s: Str): Str {
    seq(|s|, i requires 0 <= i < |s| => Lower(s[i]))
  }

  function FoldAll(s: seq<Str>): set<Str> {
    set i | 0 <= i < |s| :: Fold(s[i])
  }

  predicate Unrepeated(s: seq<Str>) {
    forall i, j :: 0 <= i < j < |s| ==> !SameFolded(s[i], s[j])
  }

  lemma FoldSame(a: Str, b: Str)
    ensures Fold(a) == Fold(b) <==> SameFolded(a, b)
  {
    assert |Fold(a)| == |a| && |Fold(b)| == |b|;
    if Fold(a) == Fold(b) {
      forall i | 0 <= i < |a| ensures Lower(a[i]) == Lower(b[i]) {
        assert Fold(a)[i] == Lower(a[i]) && Fold(b)[i] == Lower(b[i]);
      }
    }
  }

  lemma {:induction false} FoldCount(s: seq<Str>)
    ensures |FoldAll(s)| <= |s|
    ensures Unrepeated(s) ==> |FoldAll(s)| == |s|
  {
    if s != [] {
      var n := |s| - 1;
      FoldCount(s[..n]);
      assert FoldAll(s) == FoldAll(s[..n]) + {Fold(s[n])};
      if Unrepeated(s) {
        forall i | 0 <= i < n ensures Fold(s[i]) != Fold(s[n]) { FoldSame(s[i], s[n]); }
      }
    }
  }

  lemma SameSize<T>(a: set<T>, b: set<T>)
    requires a <= b && |a| >= |b|
    ensures a == b
  {
    assert b == a + (b - a);
  }

  lemma IncludedFolds(left: seq<Str>, right: seq<Str>)
    ensures Included(left, right) <==> FoldAll(left) <= FoldAll(right)
  {
    forall i | 0 <= i < |left| ensures Wants(right, left[i]) <==> Fold(left[i]) in FoldAll(right) {
      forall j | 0 <= j < |right| ensures SameFolded(left[i], right[j]) <==> Fold(left[i]) == Fold(right[j]) {
        FoldSame(left[i], right[j]);
      }
    }
  }

  /** When the first list repeats no header, the check tells exactly whether both
      lists name the same headers, so that all their locations read the same tags. */
  lemma EqualHeaders(left: seq<Str>, right: seq<Str>, headers: seq<Header>)
    requires |left| == |right| && Unrepeated(left)
    ensures Included(left, right) <==> FoldAll(left) == FoldAll(right)
    ensures Included(left, right) ==> TagsIn(headers, left) == TagsIn(headers, right)
  {
    IncludedFolds(left, right);
    FoldCount(left);
    FoldCount(right);
    if Included(left, right) {
      SameSize(FoldAll(left), FoldAll(right));
      IncludedFolds(right, left);
      SameWants(left, right, headers);
    }
  }

  lemma {:induction false} SameWants(left: seq<Str>, right: seq<Str>, headers: seq<Header>)
    requires Included(left, right) && Included(right, left)
    ensures TagsIn(headers, left) == TagsIn(headers, right)
  {
    if headers == [] {
    } else {
      var n := |headers| - 1;
      var name := headers[n].name;
      SameWants(left, right, headers[..n]);
      assert headers == headers[..n] + [headers[n]];
      TagsOfLast(headers[..n], headers[n], left);
      TagsOfLast(headers[..n], headers[n], right);
      WantsThrough(left, right, name);
      WantsThrough(right, left, name);
    }
  }

  lemma WantsThrough(a: seq<Str>, b: seq<Str>, name: Str)
    requires Included(a, b)
    ensures Wants(a, name) ==> Wants(b, name)
  {
    if j :| 0 <= j < |a| && SameFolded(name, a[j]) {
      WantsAlike(b, name, a[j]);
    }
  }

  /** A name that is longer than all of these. */
  function Longer(names: seq<Str>): (name: Str)
    ensures forall i :: 0 <= i < |names| ==> |names[i]| < |name|
  {
    if names == [] then []
    else
      var n := Longer(names[..|names| - 1]);
      var last := names[|names| - 1];
      seq(if |last| < |n| then |n| else |last| + 1, _ => 65)
  }

  /** A list that repeats a header passes the check against one that has another
      header in place of the repetition, and fails it the other way round. */
  lemma RepeatedHeaderSlips(left: seq<Str>, i: nat, j: nat) returns (right: seq<Str>)
    requires i < j < |left| && SameFolded(left[i], left[j])
    ensures |right| == |left| && Included(left, right) && !Included(right, left)
    ensures FoldAll(left) != FoldAll(right)
  {
    var name := Longer(left);
    right := left[j := name];
    forall k | 0 <= k < |left| ensures Wants(right, left[k]) {
      assert SameFolded(left[k], right[if k == j then i else k]);
    }
    assert !Wants(left, right[j]);
    IncludedFolds(right, left);
  }

  /** Whatever the other list of the same length is, the check says whether both name
      the same headers. */
  ghost predicate ExactCheck(left: seq<Str>) {
    forall right: seq<Str> :: |right| == |left| ==> (Included(left, right) <==> FoldAll(left) == FoldAll(right))
  }

  /** The check can be trusted if and only if its first list repeats no header. */
  lemma CheckExactIff(left: seq<Str>)
    ensures ExactCheck(left) <==> Unrepeated(left)
  {
    if Unrepeated(left) {
      forall right: seq<Str> | |right| == |left| ensures Included(left, right) <==> FoldAll(left) == FoldAll(right) {
        EqualHeaders(left, right, []);
      }
    } else {
      var i, j :| 0 <= i < j < |left| && SameFolded(left[i], left[j]);
      var right := RepeatedHeaderSlips(left, i, j);
    }
  }
}
