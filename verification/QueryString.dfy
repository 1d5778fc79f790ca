/** Splitting a request target into path and query, src/http/http_server.cpp. The query is what
    follows the first '?' (section 3.4 of RFC 3986); nothing is percent-decoded. */
module QueryString {
  import opened Text

  function ExtractPath(target: string): string {
    target[..Find(target, '?')]
  }

  function QueryText(target: string): string {
    var q := Find(target, '?');
    if q == |target| then "" else target[q + 1..]
  }

  function Split(s: string): seq<string>
    decreases |s|
  {
    var amp := Find(s, '&');
    if amp == |s| then [s] else [s[..amp]] + Split(s[amp + 1..])
  }

  datatype Pair = Pair(key: string, value: string)

  /** A part without '=' is a key with an empty value; an empty part is nothing. */
  function PairOf(part: string): Option<Pair> {
    var eq := Find(part, '=');
    if eq < |part| then Some(Pair(part[..eq], part[eq + 1..]))
    else if part != "" then Some(Pair(part, ""))
    else None
  }

  function PairsOf(part: string): seq<Pair> {
    match PairOf(part)
    case None => []
    case Some(p) => [p]
  }

  function Pairs(parts: seq<string>): seq<Pair> {
    if parts == [] then [] else PairsOf(parts[0]) + Pairs(parts[1..])
  }

  /** `emplace`: an existing key keeps its value. */
  function Emplace(m: map<string, string>, p: Pair): map<string, string> {
    if p.key in m then m else m[p.key := p.value]
  }

  function FirstWins(m: map<string, string>, pairs: seq<Pair>): map<string, string>
    decreases |pairs|
  {
    if pairs == [] then m else FirstWins(Emplace(m, pairs[0]), pairs[1..])
  }

  /** A first-wins fold over the '&'-separated parts of a query. */
  function Parsed(m: map<string, string>, query: string): map<string, string> {
    FirstWins(m, Pairs(Split(query)))
  }

  function EmplacePart(m: map<string, string>, part: string): map<string, string> {
    match PairOf(part)
    case None => m
    case Some(p) => Emplace(m, p)
  }

  method AddPart(m: map<string, string>, part: string) returns (out: map<string, string>)
    ensures out == EmplacePart(m, part)
  {
    out := m;
    var eq := Find(part, '=');
    if eq != |part| {
      out := Emplace(out, Pair(part[..eq], part[eq + 1..]));
    } else if part != "" {
      out := Emplace(out, Pair(part, ""));
    }
  }

  /** `before` is what the caller's map held. */
  method ParseQuery(target: string, before: map<string, string>) returns (out: map<string, string>)
    ensures out == Parsed(before, QueryText(target))
  {
    out := before;
    var q := Find(target, '?');
    if q == |target| || q + 1 >= |target| {
      NoParts(out);
      assert QueryText(target) == "";
      return;
    }
    var s := target[q + 1..];
    ghost var query := s;
    assert query == QueryText(target);
    while s != ""
      invariant Parsed(out, s) == Parsed(before, query)
      decreases |s|
    {
      var amp := Find(s, '&');
      var part := if amp == |s| then s else s[..amp];
      if amp == |s| {
        SplitLast(s);
        LastPart(out, s);
      } else {
        SplitFirst(s);
        FirstPart(out, s, part, s[amp + 1..], Split(s[amp + 1..]));
      }
      out := AddPart(out, part);
      if amp == |s| {
        return;
      }
      s := s[amp + 1..];
    }
    NoParts(out);
  }

  lemma NoParts(m: map<string, string>)
    ensures Parsed(m, "") == m
  {
    assert Pairs([""]) == [];
  }

  /** One loop step, seen on the parts. */
  lemma NextPart(m: map<string, string>, part: string, rest: seq<string>)
    ensures FirstWins(m, Pairs([part] + rest)) == FirstWins(EmplacePart(m, part), Pairs(rest))
  {
    assert ([part] + rest)[1..] == rest;
    match PairOf(part) {
      case None => assert [] + Pairs(rest) == Pairs(rest);
      case Some(p) => assert ([p] + Pairs(rest))[1..] == Pairs(rest);
    }
  }

  lemma SplitLast(s: string)
    requires Find(s, '&') == |s|
    ensures Split(s) == [s] + []
  {
  }

  lemma SplitFirst(s: string)
    requires Find(s, '&') < |s|
    ensures Split(s) == [s[..Find(s, '&')]] + Split(s[Find(s, '&') + 1..])
  {
  }

  lemma LastPart(m: map<string, string>, s: string)
    requires Split(s) == [s] + []
    ensures Parsed(m, s) == EmplacePart(m, s)
  {
    NextPart(m, s, []);
    assert Pairs([]) == [];
  }

  lemma FirstPart(m: map<string, string>, s: string, part: string, rest: string, parts: seq<string>)
    requires Split(s) == [part] + parts && Split(rest) == parts
    ensures Parsed(m, s) == Parsed(EmplacePart(m, part), rest)
  {
    NextPart(m, part, parts);
  }

  /** The fold's meaning: a key that was there keeps its value, another gets the value of its
      first pair, and there are no others. */
  lemma {:induction false} FirstWinsMeaning(m: map<string, string>, pairs: seq<Pair>)
    ensures var out := FirstWins(m, pairs);
      && (forall k :: k in out <==> k in m || exists p <- pairs :: p.key == k)
      && (forall k <- m :: out[k] == m[k])
      && (forall i | 0 <= i < |pairs| && pairs[i].key !in m
            && (forall j | 0 <= j < i :: pairs[j].key != pairs[i].key) ::
            out[pairs[i].key] == pairs[i].value)
    decreases |pairs|
  {
    if pairs != [] {
      var p, rest := pairs[0], pairs[1..];
      FirstWinsMeaning(Emplace(m, p), rest);
      assert forall q :: q in pairs <==> q == p || q in rest;
      forall i | 0 <= i < |pairs| && pairs[i].key !in m
          && (forall j | 0 <= j < i :: pairs[j].key != pairs[i].key)
        ensures FirstWins(m, pairs)[pairs[i].key] == pairs[i].value
      {
        if i > 0 {
          assert pairs[0].key != pairs[i].key;
          assert rest[i - 1] == pairs[i];
          assert forall j | 0 <= j < i - 1 :: rest[j] == pairs[j + 1];
        }
      }
    }
  }

  // ----- What the pieces are -----

  /** A target is its path, and after a '?' its query; without one there is no query. */
  lemma TargetCut(target: string)
    ensures '?' !in ExtractPath(target)
    ensures target == if '?' in target then ExtractPath(target) + "?" + QueryText(target) else ExtractPath(target)
    ensures '?' !in target ==> QueryText(target) == ""
  {
    var q := Find(target, '?');
    if q < |target| {
      assert target[q] == '?';
      assert target == target[..q] + [target[q]] + target[q + 1..];
    } else {
      assert target == target[..q];
    }
  }

  function Join(parts: seq<string>): string {
    if parts == [] then ""
    else if |parts| == 1 then parts[0]
    else parts[0] + "&" + Join(parts[1..])
  }

  lemma JoinCons(part: string, rest: seq<string>)
    requires rest != []
    ensures Join([part] + rest) == part + "&" + Join(rest)
  {
    assert ([part] + rest)[1..] == rest;
  }

  lemma SplitCut(s: string) returns (part: string, tail: string)
    requires '&' in s
    ensures s == part + "&" + tail && '&' !in part
    ensures Split(s) == [part] + Split(tail)
  {
    var amp := Find(s, '&');
    assert s[..|s|] == s;
    SplitFirst(s);
    part, tail := s[..amp], s[amp + 1..];
    assert s == s[..amp] + [s[amp]] + s[amp + 1..];
  }

  lemma SplitWhole(s: string)
    requires '&' !in s
    ensures Split(s) == [s]
  {
    FindNone(s, '&');
    SplitLast(s);
  }

  /** The parts are free of '&', and with '&' between them they make up the query. */
  lemma {:induction false} SplitMeaning(s: string)
    ensures Split(s) != [] && Join(Split(s)) == s
    ensures forall part <- Split(s) :: '&' !in part
    decreases |s|
  {
    if '&' in s {
      var part, tail := SplitCut(s);
      SplitMeaning(tail);
      JoinCons(part, Split(tail));
    } else {
      SplitWhole(s);
    }
  }

  /** What a part means: its text up to the first '=' and the text behind it; all of it, with
      an empty value, when it has no '='; nothing when it is empty. */
  lemma PartMeaning(part: string)
    ensures PairOf(part) == None <==> part == ""
    ensures '=' in part ==>
      var p := PairOf(part).value;
      part == p.key + "=" + p.value && '=' !in p.key
    ensures part != "" && '=' !in part ==> PairOf(part) == Some(Pair(part, ""))
  {
    var eq := Find(part, '=');
    if eq < |part| {
      assert part[eq] == '=';
      assert part == part[..eq] + [part[eq]] + part[eq + 1..];
    } else {
      assert part == part[..eq];
    }
  }

  lemma PairsCons(part: string, rest: seq<string>, parts: seq<string>)
    requires parts == [part] + rest
    ensures Pairs(parts) == PairsOf(part) + Pairs(rest)
  {
    assert parts[1..] == rest;
  }

  lemma ConcatAssociates(a: seq<Pair>, b: seq<Pair>, c: seq<Pair>)
    ensures a + (b + c) == (a + b) + c
  {
  }

  /** The pairs are those of the parts, one after the other. */
  lemma {:induction false} PairsConcat(a: seq<string>, b: seq<string>)
    ensures Pairs(a + b) == Pairs(a) + Pairs(b)
  {
    if a == [] {
      assert a + b == b;
    } else {
      var part, rest := a[0], a[1..];
      PairsConcat(rest, b);
      PairsCons(part, rest, a);
      PairsCons(part, rest + b, a + b);
      ConcatAssociates(PairsOf(part), Pairs(rest), Pairs(b));
    }
  }

  lemma PairsOfOne(part: string)
    ensures Pairs([part]) == match PairOf(part) case None => [] case Some(p) => [p]
  {
    PairsCons(part, [], [part]);
  }

  // ----- Round trip -----

  function PrintPair(p: Pair): string {
    p.key + "=" + p.value
  }

  function PrintQuery(pairs: seq<Pair>): string {
    if pairs == [] then ""
    else if |pairs| == 1 then PrintPair(pairs[0])
    else PrintPair(pairs[0]) + "&" + PrintQuery(pairs[1..])
  }

  ghost predicate Printable(pairs: seq<Pair>) {
    forall p <- pairs :: '&' !in p.key && '=' !in p.key && '&' !in p.value
  }

  lemma PairOfPrinted(p: Pair)
    requires '=' !in p.key
    ensures PairOf(PrintPair(p)) == Some(p)
  {
    var s := PrintPair(p);
    assert s == p.key + ['='] + p.value;
    CutAfter(p.key, '=', p.value);
  }

  lemma {:induction false} PairsOfPrinted(pairs: seq<Pair>)
    requires Printable(pairs)
    ensures Pairs(Split(PrintQuery(pairs))) == pairs
    decreases |pairs|
  {
    if pairs == [] {
      assert Pairs([""]) == [];
    } else {
      var p, rest := pairs[0], pairs[1..];
      var s := PrintPair(p);
      PairOfPrinted(p);
      assert '&' !in s;
      assert pairs == [p] + rest;
      if |pairs| == 1 {
        FindNone(s, '&');
        assert Split(s) == [s];
        assert Pairs([s]) == [p] + Pairs([s][1..]);
      } else {
        PairsOfPrinted(rest);
        SplitAfter(s, PrintQuery(rest));
      }
    }
  }

  lemma SplitAfter(part: string, rest: string)
    requires '&' !in part
    ensures Split(part + "&" + rest) == [part] + Split(rest)
  {
    var s := part + ['&'] + rest;
    CutAfter(part, '&', rest);
  }

  /** Printing a '?'-free path and any printable pairs, then taking the target apart again,
      gives back the path and the pairs. */
  lemma TargetRoundTrip(path: string, pairs: seq<Pair>)
    requires '?' !in path && Printable(pairs)
    ensures var target := path + "?" + PrintQuery(pairs);
      && ExtractPath(target) == path
      && QueryText(target) == PrintQuery(pairs)
      && Parsed(map[], QueryText(target)) == FirstWins(map[], pairs)
  {
    var rest := PrintQuery(pairs);
    var target := path + ['?'] + rest;
    CutAfter(path, '?', rest);
    PairsOfPrinted(pairs);
  }

  /** With distinct keys, parsing into an empty map yields exactly the pairs. */
  lemma DistinctPairsAreTheMap(pairs: seq<Pair>)
    requires forall i, j | 0 <= i < j < |pairs| :: pairs[i].key != pairs[j].key
    ensures var out := FirstWins(map[], pairs);
      && (forall k :: k in out <==> exists p <- pairs :: p.key == k)
      && forall i | 0 <= i < |pairs| :: out[pairs[i].key] == pairs[i].value
  {
    FirstWinsMeaning(map[], pairs);
    forall i | 0 <= i < |pairs|
      ensures FirstWins(map[], pairs)[pairs[i].key] == pairs[i].value
    {
      assert forall j | 0 <= j < i :: pairs[j].key != pairs[i].key;
    }
  }
}
