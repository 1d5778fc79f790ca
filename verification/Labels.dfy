/** Label sets and the two texts made from them in src/core/metrics.cpp: the exposition text,
    which escapes values, and the registry key, which does not. A label set is given as the
    key-ordered traversal of the std::map. */
module Labels {
  import opened Text

  datatype Label = Label(name: string, value: string)

  // ----- Exposition text -----

  function EscapeChar(c: char): string {
    if c == '\\' || c == '"' then ['\\', c]
    else if c == '\n' then "\\n"
    else [c]
  }

  function Escape(v: string): string {
    if v == "" then "" else EscapeChar(v[0]) + Escape(v[1..])
  }

  function Item(l: Label): string {
    l.name + "=\"" + Escape(l.value) + "\""
  }

  function Items(labels: seq<Label>, first: bool): string {
    if labels == [] then ""
    else (if first then "" else ",") + Item(labels[0]) + Items(labels[1..], false)
  }

  function LabelText(labels: seq<Label>): string {
    if labels == [] then "" else "{" + Items(labels, true) + "}"
  }

  lemma EscapeUnfold(before: string, v: string)
    requires v != ""
    ensures before + Escape(v) == before + EscapeChar(v[0]) + Escape(v[1..])
  {
  }

  method AppendEscaped(before: string, value: string) returns (text: string)
    ensures text == before + Escape(value)
  {
    text := before;
    for j := 0 to |value|
      invariant text + Escape(value[j..]) == before + Escape(value)
    {
      var c := value[j];
      assert value[j..][1..] == value[j + 1..];
      EscapeUnfold(text, value[j..]);
      if c == '\\' || c == '"' {
        text := text + ['\\', c];
      } else if c == '\n' {
        text := text + "\\n";
      } else {
        text := text + [c];
      }
    }
  }

  method AppendItem(before: string, l: Label, first: bool) returns (text: string)
    ensures text == before + (if first then "" else ",") + Item(l)
  {
    text := before;
    if !first {
      text := text + ",";
    }
    ghost var opening := text;
    text := text + l.name + "=\"";
    text := AppendEscaped(text, l.value);
    text := text + "\"";
    assert text == opening + Item(l);
  }

  method ToPrometheusLabelText(labels: seq<Label>) returns (text: string)
    ensures text == LabelText(labels)
  {
    if labels == [] {
      return "";
    }
    text := "{";
    var first := true;
    for i := 0 to |labels|
      invariant text + Items(labels[i..], first) == "{" + Items(labels, true)
    {
      assert labels[i..][1..] == labels[i + 1..];
      ItemsUnfold(text, labels[i..], first);
      text := AppendItem(text, labels[i], first);
      first := false;
    }
    text := text + "}";
  }

  lemma ItemsUnfold(before: string, labels: seq<Label>, first: bool)
    requires labels != []
    ensures before + Items(labels, first)
         == before + (if first then "" else ",") + Item(labels[0]) + Items(labels[1..], false)
  {
    var comma := if first then "" else ",";
    assert Items(labels, first) == comma + Item(labels[0]) + Items(labels[1..], false);
  }

  /** The escapes of the text exposition format 0.0.4, and no others. */
  function Unescape(c: char): Option<char> {
    if c == '\\' || c == '"' then Some(c)
    else if c == 'n' then Some('\n')
    else None
  }

  /** Read an escaped value up to its closing quote. */
  function ParseValue(s: string): (r: Option<(string, string)>)
    ensures r.Some? ==> |r.value.1| < |s|
  {
    if s == "" || s[0] == '\n' then None
    else if s[0] == '"' then Some(("", s[1..]))
    else if s[0] == '\\' then
      if |s| == 1 || Unescape(s[1]) == None then None
      else
        match ParseValue(s[2..])
        case None => None
        case Some((v, rest)) => Some(([Unescape(s[1]).value] + v, rest))
    else
      match ParseValue(s[1..])
      case None => None
      case Some((v, rest)) => Some(([s[0]] + v, rest))
  }

  /** Read one name="value" and return what follows it. */
  function ParseOne(s: string): (r: Option<(Label, string)>)
    ensures r.Some? ==> |r.value.1| < |s|
  {
    var eq := Find(s, '=');
    if eq + 1 >= |s| || s[eq + 1] != '"' then None
    else
      match ParseValue(s[eq + 2..])
      case None => None
      case Some((v, rest)) => Some((Label(s[..eq], v), rest))
  }

  function ParseLabelText(s: string): Option<seq<Label>> {
    if s == "" then Some([])
    else if s[0] != '{' then None
    else ParseList(ParseOne, s[1..])
  }

  lemma ParseEscapedChar(c: char, tail: string, v: string, rest: string)
    requires ParseValue(tail) == Some((v, rest))
    ensures ParseValue(EscapeChar(c) + tail) == Some(([c] + v, rest))
  {
    var s := EscapeChar(c) + tail;
    if |EscapeChar(c)| == 2 {
      assert s[2..] == tail;
    } else {
      assert s[1..] == tail;
    }
  }

  lemma {:induction false} ParseEscaped(v: string, rest: string)
    ensures ParseValue(Escape(v) + "\"" + rest) == Some((v, rest))
  {
    if v == "" {
      assert Escape(v) + "\"" + rest == "\"" + rest;
      assert ("\"" + rest)[1..] == rest;
    } else {
      var tail := Escape(v[1..]) + "\"" + rest;
      ParseEscaped(v[1..], rest);
      ParseEscapedChar(v[0], tail, v[1..], rest);
      assert Escape(v) + "\"" + rest == EscapeChar(v[0]) + tail;
      assert v == [v[0]] + v[1..];
    }
  }

  ghost predicate PlainNames(labels: seq<Label>) {
    forall l <- labels :: '=' !in l.name
  }

  lemma ItemSplit(l: Label, rest: string)
    ensures Item(l) + rest == l.name + ['='] + ("\"" + (Escape(l.value) + "\"" + rest))
  {
  }

  lemma CutAtName(name: string, tail: string)
    requires '=' !in name
    ensures var s := name + ['='] + ("\"" + tail);
      && Find(s, '=') == |name| && |name| + 1 < |s| && s[|name| + 1] == '"'
      && s[..|name|] == name && s[|name| + 2..] == tail
  {
    FindAfter(name, '=', "\"" + tail);
  }

  lemma ParseItem(l: Label, rest: string)
    requires '=' !in l.name
    ensures ParseOne(Item(l) + rest) == Some((l, rest))
  {
    ItemSplit(l, rest);
    CutAtName(l.name, Escape(l.value) + "\"" + rest);
    ParseEscaped(l.value, rest);
  }

  lemma CommaFirst(labels: seq<Label>)
    requires labels != []
    ensures Items(labels, true) == Item(labels[0]) + Items(labels[1..], false)
    ensures Items(labels, false) == "," + Items(labels, true)
  {
    assert "" + Item(labels[0]) == Item(labels[0]);
    assert "," + Item(labels[0]) + Items(labels[1..], false)
        == "," + (Item(labels[0]) + Items(labels[1..], false));
  }

  /** A printed list is its first item and what follows. */
  lemma {:induction false} ItemsAreList(labels: seq<Label>)
    requires labels != []
    ensures Items(labels, true) + "}" == PrintList(Item, labels)
    decreases |labels|
  {
    CommaFirst(labels);
    Associates(Item(labels[0]), Items(labels[1..], false), "}");
    if |labels| > 1 {
      ItemsAreList(labels[1..]);
      CommaFirst(labels[1..]);
      Associates(",", Items(labels[1..], true), "}");
    }
  }

  lemma ItemsReadBack(labels: seq<Label>)
    requires PlainNames(labels)
    ensures forall l <- labels :: ReadsBack(Item, ParseOne, l)
  {
    forall l <- labels
      ensures ReadsBack(Item, ParseOne, l)
    {
      forall rest
        ensures ParseOne(Item(l) + rest) == Some((l, rest))
      {
        ParseItem(l, rest);
      }
    }
  }

  /** The printed text determines the label set. */
  lemma LabelTextRoundTrip(labels: seq<Label>)
    requires PlainNames(labels)
    ensures ParseLabelText(LabelText(labels)) == Some(labels)
  {
    if labels != [] {
      ItemsReadBack(labels);
      ListRoundTrip(Item, ParseOne, labels);
      ItemsAreList(labels);
      Opened(Items(labels, true) + "}");
      assert LabelText(labels) == "{" + (Items(labels, true) + "}");
    }
  }

  lemma Opened(rest: string)
    ensures ParseLabelText("{" + rest) == ParseList(ParseOne, rest)
  {
    assert ("{" + rest)[1..] == rest;
  }

  /** The text of any labels, also of those that no parser could recover: one label is its name,
      the escaped value in quotes behind '=', and more are separated by commas. */
  lemma LabelTextOfOne(l: Label)
    ensures LabelText([]) == ""
    ensures LabelText([l]) == "{" + l.name + "=\"" + Escape(l.value) + "\"" + "}"
  {
    CommaFirst([l]);
    assert Items([l][1..], false) == "";
  }

  lemma ItemsHead(labels: seq<Label>, l: Label, rest: seq<Label>, first: bool)
    requires labels == [l] + rest
    ensures Items(labels, first) == (if first then "" else ",") + Item(l) + Items(rest, false)
  {
    assert labels[1..] == rest;
  }

  lemma Associates(a: string, b: string, c: string)
    ensures a + (b + c) == (a + b) + c
  {
  }

  lemma {:induction false} ItemsConcat(a: seq<Label>, b: seq<Label>, first: bool)
    requires a != []
    ensures Items(a + b, first) == Items(a, first) + Items(b, false)
    decreases |a|
  {
    var l, rest := a[0], a[1..];
    var head := (if first then "" else ",") + Item(l);
    ItemsHead(a, l, rest, first);
    ItemsHead(a + b, l, rest + b, first);
    if rest == [] {
      assert rest + b == b;
    } else {
      ItemsConcat(rest, b, false);
      Associates(head, Items(rest, false), Items(b, false));
    }
  }

  lemma Braces(x: string)
    ensures ("{" + x + "}")[..|x| + 1] == "{" + x
    ensures ("{" + x + "}")[1..] == x + "}"
  {
  }

  lemma LabelTextConcat(a: seq<Label>, b: seq<Label>)
    requires a != [] && b != []
    ensures LabelText(a)[..|LabelText(a)| - 1] + "," + LabelText(b)[1..] == LabelText(a + b)
  {
    var x, y := Items(a, true), Items(b, true);
    ItemsConcat(a, b, true);
    CommaFirst(b);
    Braces(x);
    Braces(y);
    BetweenBraces(x, y);
  }

  lemma BetweenBraces(x: string, y: string)
    ensures ("{" + x) + "," + (y + "}") == "{" + (x + ("," + y)) + "}"
  {
  }

  /** No quote except behind a backslash, and no line break, reading left to right. */
  ghost predicate SafeValueText(s: string) {
    s == "" ||
    if s[0] == '\\' then |s| >= 2 && s[1] != '\n' && SafeValueText(s[2..])
    else s[0] != '"' && s[0] != '\n' && SafeValueText(s[1..])
  }

  lemma {:induction false} EscapedIsSafe(v: string)
    ensures SafeValueText(Escape(v)) && '\n' !in Escape(v)
  {
    if v != "" {
      EscapedIsSafe(v[1..]);
      var tail := Escape(v[1..]);
      if |EscapeChar(v[0])| == 2 {
        assert Escape(v)[2..] == tail;
      } else {
        assert Escape(v)[1..] == tail;
      }
    }
  }

  /** Where there is nothing to escape, the text is the value itself. */
  lemma {:induction false} PlainValueStays(v: string)
    requires '\\' !in v && '"' !in v && '\n' !in v
    ensures Escape(v) == v
  {
    if v != "" {
      PlainValueStays(v[1..]);
      assert v == [v[0]] + v[1..];
    }
  }

  // ----- Registry keys -----

  function KeyEntries(labels: seq<Label>): string {
    if labels == [] then ""
    else labels[0].name + "=" + labels[0].value + "\n" + KeyEntries(labels[1..])
  }

  function KeyText(name: string, labels: seq<Label>): string {
    name + "\n" + KeyEntries(labels)
  }

  method Key(name: string, labels: seq<Label>) returns (key: string)
    ensures key == KeyText(name, labels)
  {
    key := name;
    key := key + ['\n'];
    for i := 0 to |labels|
      invariant key + KeyEntries(labels[i..]) == KeyText(name, labels)
    {
      var before := key;
      key := key + labels[i].name;
      key := key + ['='];
      key := key + labels[i].value;
      key := key + ['\n'];
      assert labels[i..][1..] == labels[i + 1..];
      assert key + KeyEntries(labels[i + 1..]) == before + KeyEntries(labels[i..]);
    }
  }

  /** The key of any name and labels is the name and the entries, one after the other. */
  lemma {:induction false} KeyEntriesConcat(a: seq<Label>, b: seq<Label>)
    ensures KeyEntries(a + b) == KeyEntries(a) + KeyEntries(b)
  {
    if a == [] {
      assert a + b == b;
    } else {
      KeyEntriesConcat(a[1..], b);
      assert (a + b)[1..] == a[1..] + b;
    }
  }

  lemma KeyTextConcat(name: string, labels: seq<Label>, last: Label)
    ensures KeyText(name, []) == name + "\n"
    ensures KeyText(name, labels + [last]) == KeyText(name, labels) + last.name + "=" + last.value + "\n"
  {
    KeyOfBare(name);
    KeyEntriesConcat(labels, [last]);
    OneEntry(last.name, last.value);
    assert last == Label(last.name, last.value);
  }

  function DecodeOne(s: string): (r: Option<(Label, string)>)
    ensures r.Some? ==> |r.value.1| < |s|
  {
    var eq := Find(s, '=');
    if eq == |s| then None
    else
      var after := s[eq + 1..];
      var end := Find(after, '\n');
      if end == |after| then None
      else Some((Label(s[..eq], after[..end]), after[end + 1..]))
  }

  function DecodeEntries(s: string): Option<seq<Label>>
    decreases |s|
  {
    if s == "" then Some([])
    else
      match DecodeOne(s)
      case None => None
      case Some((l, rest)) =>
        match DecodeEntries(rest)
        case None => None
        case Some(more) => Some([l] + more)
  }

  function DecodeKey(s: string): Option<(string, seq<Label>)> {
    var end := Find(s, '\n');
    if end == |s| then None
    else
      match DecodeEntries(s[end + 1..])
      case None => None
      case Some(labels) => Some((s[..end], labels))
  }

  /** What a caller must respect for keys to be unambiguous. */
  ghost predicate Decodable(name: string, labels: seq<Label>) {
    && '\n' !in name
    && PlainNames(labels)
    && forall l <- labels :: '\n' !in l.value
  }

  lemma DecodeHead(l: Label, rest: string)
    requires '=' !in l.name && '\n' !in l.value
    ensures DecodeOne(l.name + "=" + l.value + "\n" + rest) == Some((l, rest))
  {
    var s := l.name + "=" + l.value + "\n" + rest;
    var after := l.value + ['\n'] + rest;
    assert s == l.name + ['='] + after;
    CutAfter(l.name, '=', after);
    CutAfter(l.value, '\n', rest);
  }

  lemma DecodeMore(s: string, l: Label, rest: string, more: seq<Label>)
    requires DecodeOne(s) == Some((l, rest))
    requires DecodeEntries(rest) == Some(more)
    ensures DecodeEntries(s) == Some([l] + more)
  {
  }

  lemma {:induction false} DecodeKeyEntries(labels: seq<Label>)
    requires Decodable("", labels)
    ensures DecodeEntries(KeyEntries(labels)) == Some(labels)
  {
    if labels != [] {
      var l, more := labels[0], labels[1..];
      DecodeKeyEntries(more);
      DecodeHead(l, KeyEntries(more));
      DecodeMore(KeyEntries(labels), l, KeyEntries(more), more);
      assert labels == [l] + more;
    }
  }

  lemma DecodeOfKey(name: string, labels: seq<Label>)
    requires Decodable(name, labels)
    ensures DecodeKey(KeyText(name, labels)) == Some((name, labels))
  {
    var s := KeyText(name, labels);
    assert s == name + ['\n'] + KeyEntries(labels);
    CutAfter(name, '\n', KeyEntries(labels));
    DecodeKeyEntries(labels);
  }

  lemma KeyIsInjective(name: string, labels: seq<Label>, name': string, labels': seq<Label>)
    requires Decodable(name, labels) && Decodable(name', labels')
    ensures KeyText(name, labels) == KeyText(name', labels') <==> name == name' && labels == labels'
  {
    DecodeOfKey(name, labels);
    DecodeOfKey(name', labels');
  }

  // ----- Exactly when a key is ambiguous -----

  lemma FindCuts(s: string, c: char)
    requires Find(s, c) < |s|
    ensures var i := Find(s, c);
      s == s[..i] + [c] + s[i + 1..] && c !in s[..i]
  {
    var i := Find(s, c);
    Cut(s, i);
  }

  lemma Cut(s: string, i: nat)
    requires i < |s|
    ensures s == s[..i] + [s[i]] + s[i + 1..]
  {
  }

  lemma OneOfDecoded(s: string)
    requires DecodeOne(s).Some?
    ensures var (l, rest) := DecodeOne(s).value;
      s == l.name + "=" + l.value + "\n" + rest && '=' !in l.name && '\n' !in l.value
  {
    FindCuts(s, '=');
    var after := s[Find(s, '=') + 1..];
    FindCuts(after, '\n');
    var (l, rest) := DecodeOne(s).value;
    Rejoined(s, after, l, rest);
  }

  lemma Rejoined(s: string, after: string, l: Label, rest: string)
    requires s == l.name + ['='] + after && after == l.value + ['\n'] + rest
    ensures s == l.name + "=" + l.value + "\n" + rest
  {
  }

  lemma SameFront(a: string, b: string, c: char)
    requires a + [c] == b + [c]
    ensures a == b
  {
    assert a == (a + [c])[..|a|];
    assert b == (b + [c])[..|b|];
  }

  lemma KeyOfBare(name: string)
    ensures KeyText(name, []) == name + ['\n']
  {
    assert name + "\n" + "" == name + ['\n'];
  }

  lemma {:induction false} EntriesOfDecoded(s: string)
    requires DecodeEntries(s).Some?
    ensures var labels := DecodeEntries(s).value;
      KeyEntries(labels) == s && Decodable("", labels)
    decreases |s|
  {
    if s != "" {
      OneOfDecoded(s);
      var (l, rest) := DecodeOne(s).value;
      EntriesOfDecoded(rest);
      var more := DecodeEntries(rest).value;
      assert ([l] + more)[1..] == more;
    }
  }

  /** Whatever decodes was the key of just what it decodes to. */
  lemma KeyOfDecoded(s: string)
    requires DecodeKey(s).Some?
    ensures var (name, labels) := DecodeKey(s).value;
      KeyText(name, labels) == s && Decodable(name, labels)
  {
    FindCuts(s, '\n');
    EntriesOfDecoded(s[Find(s, '\n') + 1..]);
    var (name, labels) := DecodeKey(s).value;
    assert s == name + "\n" + KeyEntries(labels);
  }

  /** `operator<` of std::string. */
  predicate Less(a: string, b: string) {
    b != "" && (a == "" || a[0] < b[0] || (a[0] == b[0] && Less(a[1..], b[1..])))
  }

  lemma {:induction false} LessIsStrict(a: string)
    ensures !Less(a, a)
  {
    if a != "" {
      LessIsStrict(a[1..]);
    }
  }

  /** A traversal of a std::map: keys strictly ascending, so none twice. */
  ghost predicate Ordered(labels: seq<Label>) {
    forall i, j | 0 <= i < j < |labels| :: Less(labels[i].name, labels[j].name)
  }

  lemma OrderedHasNoDuplicates(labels: seq<Label>)
    requires Ordered(labels)
    ensures forall i, j | 0 <= i < j < |labels| :: labels[i].name != labels[j].name
  {
    forall i, j | 0 <= i < j < |labels|
      ensures labels[i].name != labels[j].name
    {
      LessIsStrict(labels[i].name);
    }
  }

  /** No metric with decodable names other than this one has this one's key. */
  ghost predicate UnsharedByDecodable(name: string, labels: seq<Label>) {
    forall name', labels' |
      Ordered(labels') && Decodable(name', labels') && KeyText(name', labels') == KeyText(name, labels) ::
      name' == name && labels' == labels
  }

  /** The key decodes to a metric: to a name and a label set. */
  ghost predicate DecodesToMetric(key: string) {
    DecodeKey(key).Some? && Ordered(DecodeKey(key).value.1)
  }

  /** A metric is safe from all decodable ones if and only if it is decodable itself or its key
      does not decode to any metric. */
  lemma UnsharedByDecodableIff(name: string, labels: seq<Label>)
    ensures UnsharedByDecodable(name, labels)
       <==> Decodable(name, labels) || !DecodesToMetric(KeyText(name, labels))
  {
    var key := KeyText(name, labels);
    forall name', labels' | Decodable(name', labels') && KeyText(name', labels') == key
      ensures DecodeKey(key) == Some((name', labels'))
    {
      DecodeOfKey(name', labels');
    }
    if Decodable(name, labels) {
      DecodeOfKey(name, labels);
    } else if DecodesToMetric(key) {
      KeyOfDecoded(key);
      var (name', labels') := DecodeKey(key).value;
      assert Decodable(name', labels') && KeyText(name', labels') == key;
    }
  }

  /** No other metric at all has this one's key. */
  ghost predicate Unshared(name: string, labels: seq<Label>) {
    forall name', labels' | Ordered(labels') && KeyText(name', labels') == KeyText(name, labels) ::
      name' == name && labels' == labels
  }

  lemma {:induction false} EntriesEndInBreak(labels: seq<Label>)
    requires labels != []
    ensures var s := KeyEntries(labels);
      s != "" && s[|s| - 1] == '\n' && '=' in s[..|s| - 1]
  {
    var l := labels[0];
    var s := KeyEntries(labels);
    assert |l.name| < |s| - 1 && s[..|s| - 1][|l.name|] == '=';
    if |labels| > 1 {
      EntriesEndInBreak(labels[1..]);
    } else {
      assert KeyEntries(labels[1..]) == "";
    }
  }

  /** A metric with labels has the same key as one whose name spells the labels out. */
  lemma LabelsInName(name: string, labels: seq<Label>)
    requires labels != []
    ensures !Unshared(name, labels)
  {
    EntriesEndInBreak(labels);
    var key := KeyText(name, labels);
    var whole := key[..|key| - 1];
    assert key == whole + "\n" + KeyEntries([]);
    assert Ordered([]) && KeyText(whole, []) == key;
  }

  lemma NameWithLabel(name: string, l: Label)
    ensures KeyText(name + "\n" + l.name + "=" + l.value, []) == KeyText(name, [l])
  {
    OneEntry(l.name, l.value);
    KeyOfBare(name + "\n" + l.name + "=" + l.value);
    assert l == Label(l.name, l.value);
    assert name + "\n" + l.name + "=" + l.value + ['\n'] == name + "\n" + (l.name + "=" + l.value + "\n");
  }

  lemma LabelIn(tail: string) returns (l: Label)
    requires '=' in tail
    ensures tail == l.name + ['='] + l.value
  {
    var j :| 0 <= j < |tail| && tail[j] == '=';
    Cut(tail, j);
    l := Label(tail[..j], tail[j + 1..]);
  }

  /** An '=' behind a line break in a name can be taken for a label's. */
  lemma BreakInName(name: string, i: nat)
    requires i < |name| && name[i] == '\n' && '=' in name[i + 1..]
    ensures !Unshared(name, [])
  {
    Cut(name, i);
    var l := LabelIn(name[i + 1..]);
    SameName(name, name[..i], name[i + 1..], l);
    NameWithLabel(name[..i], l);
    assert Ordered([l]);
  }

  lemma SameName(name: string, head: string, tail: string, l: Label)
    requires name == head + ['\n'] + tail && tail == l.name + ['='] + l.value
    ensures name == head + "\n" + l.name + "=" + l.value
  {
  }

  /** Where the key of a metric without labels could be cut apart. */
  lemma CutOfName(name: string, name': string, labels': seq<Label>)
    requires KeyText(name', labels') == KeyText(name, []) && labels' != []
    ensures |name'| < |name| && name[|name'|] == '\n' && '=' in name[|name'| + 1..]
  {
    EntriesEndInBreak(labels');
    KeyOfBare(name);
    var entries := KeyEntries(labels');
    var body := entries[..|entries| - 1];
    assert entries == body + ['\n'];
    assert name' + "\n" + entries == (name' + "\n" + body) + ['\n'];
    SameFront(name, name' + "\n" + body, '\n');
    assert name[|name'| + 1..] == body;
  }

  /** Exactly which metrics share their key with no other metric whatsoever: those without
      labels whose name has no '=' anywhere behind a line break. */
  lemma UnsharedIff(name: string, labels: seq<Label>)
    ensures Unshared(name, labels)
       <==> labels == [] && (forall i | 0 <= i < |name| && name[i] == '\n' :: '=' !in name[i + 1..])
  {
    if labels != [] {
      LabelsInName(name, labels);
    } else if i :| 0 <= i < |name| && name[i] == '\n' && '=' in name[i + 1..] {
      BreakInName(name, i);
    } else {
      forall name', labels' | Ordered(labels') && KeyText(name', labels') == KeyText(name, [])
        ensures name' == name && labels' == []
      {
        if labels' != [] {
          CutOfName(name, name', labels');
          assert false;
        }
        KeyOfBare(name);
        KeyOfBare(name');
        SameFront(name, name', '\n');
      }
    }
  }

  /** Two different metrics with one key. */
  ghost predicate Collide(name: string, labels: seq<Label>, name': string, labels': seq<Label>) {
    && Ordered(labels) && Ordered(labels')
    && (name != name' || labels != labels')
    && KeyText(name, labels) == KeyText(name', labels')
  }

  lemma BreakInNameCollides(a: string, b: string, c: string)
    ensures Collide(a + "\n" + b + "=" + c, [], a, [Label(b, c)])
  {
    NameWithLabel(a, Label(b, c));
  }

  lemma EqualsInLabelCollides(a: string, b: string, c: string, d: string)
    ensures Collide(a, [Label(b + "=" + c, d)], a, [Label(b, c + "=" + d)])
  {
    OneEntry(b + "=" + c, d);
    OneEntry(b, c + "=" + d);
    assert (b + "=" + c) + "=" + d + "\n" == b + "=" + (c + "=" + d) + "\n";
    assert |b + "=" + c| > |b|;
  }

  lemma BreakInValueCollides(a: string, b: string, c: string, d: string)
    requires Less(b, d)
    ensures Collide(a, [Label(b, c + "\n" + d + "=")], a, [Label(b, c), Label(d, "")])
  {
    OneEntry(b, c + "\n" + d + "=");
    OneEntry(d, "");
    var two := [Label(b, c), Label(d, "")];
    assert two[1..] == [Label(d, "")];
    assert b + "=" + (c + "\n" + d + "=") + "\n" == b + "=" + c + "\n" + (d + "=" + "" + "\n");
  }

  /** Each of the three conditions is needed: a name with a line break, a label name with '=' and a
      label value with a line break each make a metric collide with another, for any texts, of
      which in the last case the two label names must be in order. */
  lemma KeysCollide(a: string, b: string, c: string, d: string)
    ensures Collide(a + "\n" + b + "=" + c, [], a, [Label(b, c)])
    ensures Collide(a, [Label(b + "=" + c, d)], a, [Label(b, c + "=" + d)])
    ensures Less(b, d) ==>
      Collide(a, [Label(b, c + "\n" + d + "=")], a, [Label(b, c), Label(d, "")])
  {
    BreakInNameCollides(a, b, c);
    EqualsInLabelCollides(a, b, c, d);
    if Less(b, d) {
      BreakInValueCollides(a, b, c, d);
    }
  }

  lemma OneEntry(name: string, value: string)
    ensures KeyEntries([Label(name, value)]) == name + "=" + value + "\n"
  {
    assert [Label(name, value)][1..] == [];
    assert name + "=" + value + "\n" + "" == name + "=" + value + "\n";
  }
}
