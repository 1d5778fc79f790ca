/** Searching and cutting strings, as std::string_view does. */
module Text {

  datatype Option<+T> = None | Some(value: T)

  /** The first position of c, or |s|. */
  function Find(s: string, c: char): (i: nat)
    ensures i <= |s|
    ensures c !in s[..i]
    ensures i < |s| ==> s[i] == c
  {
    if s == "" || s[0] == c then 0
    else
      var i := Find(s[1..], c) + 1;
      assert s[..i] == [s[0]] + s[1..][..i - 1];
      i
  }

  lemma {:induction false} FindAfter(a: string, c: char, b: string)
    requires c !in a
    ensures Find(a + [c] + b, c) == |a|
  {
    if a != "" {
      assert (a + [c] + b)[1..] == a[1..] + [c] + b;
      FindAfter(a[1..], c, b);
    }
  }

  /** Cutting at the first c takes an appended text apart again. */
  lemma CutAfter(a: string, c: char, b: string)
    requires c !in a
    ensures var s := a + [c] + b;
      Find(s, c) == |a| && s[..|a|] == a && s[|a| + 1..] == b
  {
    FindAfter(a, c, b);
  }

  lemma {:induction false} FindNone(a: string, c: char)
    requires c !in a
    ensures Find(a, c) == |a|
  {
    if a != "" {
      FindNone(a[1..], c);
    }
  }

  // ----- Lists of items, separated by commas and closed by a brace -----

  function PrintList<T>(show: T -> string, xs: seq<T>): string
    requires xs != []
  {
    if |xs| == 1 then show(xs[0]) + "}" else show(xs[0]) + ("," + PrintList(show, xs[1..]))
  }

  function ParseList<T>(one: string -> Option<(T, string)>, s: string): Option<seq<T>>
    decreases |s|
  {
    match one(s)
    case None => None
    case Some((x, rest)) =>
      if rest == "}" then Some([x])
      else if rest == "" || rest[0] != ',' || |rest| > |s| then None
      else
        match ParseList(one, rest[1..])
        case None => None
        case Some(more) => Some([x] + more)
  }

  /** Reading one item back is enough to read a list of them back. */
  ghost predicate ReadsBack<T(!new)>(show: T -> string, one: string -> Option<(T, string)>, x: T) {
    forall rest :: one(show(x) + rest) == Some((x, rest))
  }

  lemma {:induction false} ListRoundTrip<T(!new)>(show: T -> string, one: string -> Option<(T, string)>, xs: seq<T>)
    requires xs != [] && forall x <- xs :: ReadsBack(show, one, x)
    ensures ParseList(one, PrintList(show, xs)) == Some(xs)
    decreases |xs|
  {
    var x := xs[0];
    assert ReadsBack(show, one, x);
    if |xs| == 1 {
      assert one(show(x) + "}") == Some((x, "}"));
      assert xs == [x];
    } else {
      var more := xs[1..];
      var tail := PrintList(show, more);
      ListRoundTrip(show, one, more);
      assert one(show(x) + ("," + tail)) == Some((x, "," + tail));
      assert ("," + tail)[1..] == tail;
      assert xs == [x] + more;
    }
  }
}
