/** `ip/info.py`: the readable summary of an `ipinfo.io` record. The lookup
    itself is a network call; the record arrives as a map from field names
    to the text Python prints for each value. */
module Info {
  import opened Strings

  type Entry = (string, string)

  /** The dict display `readable_strings`, pair by pair as it is written:
      thirteen pairs, with `hostname` given twice. */
  const Display: seq<Entry> := [
    ("ip", "IP"),
    ("org", "Организация"),
    ("country", "Страна"),
    ("anycast", "Используется метод Anycast"),
    ("region", "Регион"),
    ("city", "Город"),
    ("loc", "Координаты"),
    ("hostname", "Провайдер"),
    ("postal", "Почтовый индекс"),
    ("timezone", "Часовой пояс"),
    ("bogon", "Локальный IP-адрес"),
    ("hostname", "Провайдер"),
    ("readme", "Ссылка на документацию")
  ]

  /** The position of the key `k` among the entries, `|d|` when absent. */
  function KeyIndex(d: seq<Entry>, k: string): (j: nat)
    ensures j <= |d|
    ensures j < |d| ==> d[j].0 == k
    ensures forall i :: 0 <= i < j ==> d[i].0 != k
  {
    if d == [] then 0
    else if d[0].0 == k then 0
    else 1 + KeyIndex(d[1..], k)
  }

  predicate DistinctKeys(d: seq<Entry>) {
    forall i, j :: 0 <= i < j < |d| ==> d[i].0 != d[j].0
  }

  /** `readable_strings` once evaluated. */
  const Table: seq<Entry> := [
    ("ip", "IP"),
    ("org", "Организация"),
    ("country", "Страна"),
    ("anycast", "Используется метод Anycast"),
    ("region", "Регион"),
    ("city", "Город"),
    ("loc", "Координаты"),
    ("hostname", "Провайдер"),
    ("postal", "Почтовый индекс"),
    ("timezone", "Часовой пояс"),
    ("bogon", "Локальный IP-адрес"),
    ("readme", "Ссылка на документацию")
  ]

  /** Python evaluates a dict display left to right: a repeated key keeps
      the place of its first occurrence and takes the value of its last.
      Here the one repeated key, `hostname`, has the same label both times,
      so the dict is the display without its second `hostname`: twelve
      distinct keys in the written order. */
  lemma TableOfDisplay()
    ensures |Display| == 13 && |Table| == 12 && DistinctKeys(Table)
    ensures Display[7] == Display[11] && Display[7].0 == "hostname"
    ensures Table == Display[..11] + Display[12..]
    ensures forall i :: 0 <= i < |Table| && Table[i].0 == "hostname" ==> i == 7
  {
  }

  // ---------------------------------------------------------------------------
  // The readable text

  /** `key in ip_info and key not in filter_keys`. */
  predicate Wanted(key: string, info: map<string, string>, filterKeys: seq<string>) {
    key in info && key !in filterKeys
  }

  /** The entries of `d` whose key passes the filter, in their order. */
  function Select(d: seq<Entry>, info: map<string, string>, filterKeys: seq<string>): (kept: seq<Entry>)
    ensures |kept| <= |d|
    ensures forall i :: 0 <= i < |kept| ==> kept[i] in d && Wanted(kept[i].0, info, filterKeys)
    ensures forall i :: 0 <= i < |d| && Wanted(d[i].0, info, filterKeys) ==> d[i] in kept
  {
    if d == [] then []
    else
      var rest := Select(d[1..], info, filterKeys);
      assert forall i :: 1 <= i < |d| ==> d[i] == d[1..][i - 1];
      if Wanted(d[0].0, info, filterKeys) then [d[0]] + rest else rest
  }

  /** `f"{label}: {value}"`. */
  function Line(caption: string, value: string): string {
    caption + ": " + value
  }

  /** The generator of `get_readable`, one line per label whose key is in
      the record and not filtered out. */
  function ReadableLines(info: map<string, string>, filterKeys: seq<string>): (lines: seq<string>)
    ensures var shown := Select(Table, info, filterKeys);
      && |lines| == |shown|
      && forall i :: 0 <= i < |lines| ==> lines[i] == Line(shown[i].1, info[shown[i].0])
  {
    var shown := Select(Table, info, filterKeys);
    seq(|shown|, i requires 0 <= i < |shown| => Line(shown[i].1, info[shown[i].0]))
  }

  datatype Readable =
    | Raw(info: map<string, string>)   // `readable=False`: the record itself
    | Text(text: string)               // the joined lines

  /** `get_readable(ip, filter_keys, readable)` once the record is fetched. */
  function GetReadable(info: map<string, string>, filterKeys: seq<string>, readable: bool): (r: Readable)
    ensures !readable ==> r == Raw(info)
    ensures readable ==> r == Text(JoinWith(ReadableLines(info, filterKeys), "\n"))
  {
    if !readable then Raw(info) else Text(JoinWith(ReadableLines(info, filterKeys), "\n"))
  }

  // ---------------------------------------------------------------------------
  // Properties of the readable text

  /** A label gets a line exactly when its key is in the record and is not
      filtered out. */
  lemma ShownIff(info: map<string, string>, filterKeys: seq<string>)
    ensures var shown := Select(Table, info, filterKeys);
      forall i :: 0 <= i < |Table| ==> (Table[i] in shown <==> Wanted(Table[i].0, info, filterKeys))
  {
    var shown := Select(Table, info, filterKeys);
    forall i | 0 <= i < |Table| && Table[i] in shown ensures Wanted(Table[i].0, info, filterKeys) {
      var j :| 0 <= j < |shown| && shown[j] == Table[i];
    }
  }

  /** `kept` lists distinct keys of `d` in the order `d` has them. */
  predicate InOrder(kept: seq<Entry>, d: seq<Entry>) {
    && DistinctKeys(kept)
    && forall i, j :: 0 <= i < j < |kept| ==> KeyIndex(d, kept[i].0) < KeyIndex(d, kept[j].0)
  }

  /** The kept entries keep the order of `d`, and so no key is kept twice. */
  lemma {:induction false} SelectOrder(d: seq<Entry>, info: map<string, string>, filterKeys: seq<string>)
    requires DistinctKeys(d)
    ensures InOrder(Select(d, info, filterKeys), d)
  {
    if d != [] {
      var rest := d[1..];
      var tail := Select(rest, info, filterKeys);
      SelectOrder(rest, info, filterKeys);
      forall i | 0 <= i < |tail| ensures tail[i].0 != d[0].0 && KeyIndex(d, tail[i].0) == 1 + KeyIndex(rest, tail[i].0) {
        var m :| 0 <= m < |rest| && rest[m] == tail[i];
        assert d[m + 1] == tail[i];
      }
      ShiftOrder(d, tail);
    }
  }

  /** An ordered list of the keys of `d[1..]` stays ordered with respect to
      `d`, with or without `d[0]` in front. */
  lemma ShiftOrder(d: seq<Entry>, tail: seq<Entry>)
    requires d != [] && InOrder(tail, d[1..])
    requires forall i :: 0 <= i < |tail| ==>
      tail[i].0 != d[0].0 && KeyIndex(d, tail[i].0) == 1 + KeyIndex(d[1..], tail[i].0)
    ensures InOrder(tail, d) && InOrder([d[0]] + tail, d)
  {
    ShiftTail(d, tail);
    ConsOrder(d, tail);
  }

  lemma ShiftTail(d: seq<Entry>, tail: seq<Entry>)
    requires d != [] && InOrder(tail, d[1..])
    requires forall i :: 0 <= i < |tail| ==> KeyIndex(d, tail[i].0) == 1 + KeyIndex(d[1..], tail[i].0)
    ensures InOrder(tail, d)
  {
  }

  lemma ConsOrder(d: seq<Entry>, tail: seq<Entry>)
    requires d != [] && InOrder(tail, d)
    requires forall i :: 0 <= i < |tail| ==> tail[i].0 != d[0].0 && KeyIndex(d, tail[i].0) >= 1
    ensures InOrder([d[0]] + tail, d)
  {
    var kept := [d[0]] + tail;
    assert KeyIndex(d, d[0].0) == 0;
    forall i, j | 0 <= i < j < |kept| ensures kept[i].0 != kept[j].0 && KeyIndex(d, kept[i].0) < KeyIndex(d, kept[j].0) {
      assert kept[j] == tail[j - 1];
      if i > 0 {
        assert kept[i] == tail[i - 1];
      }
    }
  }

  /** The lines follow the label order of the dict, so `hostname`, listed
      twice in the display, gives at most one line. */
  lemma LinesInLabelOrder(info: map<string, string>, filterKeys: seq<string>)
    ensures var shown := Select(Table, info, filterKeys);
      && InOrder(shown, Table)
      && forall i, j :: 0 <= i < |shown| && 0 <= j < |shown| && shown[i].0 == "hostname" && shown[j].0 == "hostname" ==> i == j
  {
    TableOfDisplay();
    SelectOrder(Table, info, filterKeys);
  }

  /** Every label is a single line of text. */
  lemma CaptionsOneLine()
    ensures forall i :: 0 <= i < |Table| ==> '\n' !in Table[i].1 && Table[i].1 != ""
  {
    forall i | 0 <= i < |Table| ensures '\n' !in Table[i].1 {
      var c := Table[i].1;
      assert forall j :: 0 <= j < |c| ==> c[j] != '\n';
    }
  }

  /** No trailing newline: when no value spans lines, splitting the text at
      newlines gives back exactly the lines, so each line of the text reads
      `label: value`. */
  lemma TextSplitsIntoLines(info: map<string, string>, filterKeys: seq<string>)
    requires forall k :: k in info ==> '\n' !in info[k]
    requires ReadableLines(info, filterKeys) != []
    ensures SplitOn(GetReadable(info, filterKeys, true).text, '\n') == ReadableLines(info, filterKeys)
  {
    var lines := ReadableLines(info, filterKeys);
    var shown := Select(Table, info, filterKeys);
    CaptionsOneLine();
    forall i | 0 <= i < |lines| ensures '\n' !in lines[i] {
      assert shown[i] in Table;
      assert lines[i] == shown[i].1 + ": " + info[shown[i].0];
    }
    SplitOnJoin(lines, '\n');
  }

  /** The text is empty exactly when no label gets a line. */
  lemma EmptyText(info: map<string, string>, filterKeys: seq<string>)
    ensures GetReadable(info, filterKeys, true).text == "" <==> ReadableLines(info, filterKeys) == []
  {
    var lines := ReadableLines(info, filterKeys);
    if lines != [] {
      var shown := Select(Table, info, filterKeys);
      CaptionsOneLine();
      assert shown[0] in Table;
      JoinHead(lines, "\n");
      assert |lines[0]| > 0;
    }
  }

  /** Filtering out every key of the record leaves the empty string. */
  lemma AllFiltered(info: map<string, string>, filterKeys: seq<string>)
    requires forall k :: k in info ==> k in filterKeys
    ensures GetReadable(info, filterKeys, true) == Text("")
  {
    SelectNone(Table, info, filterKeys);
  }

  lemma {:induction false} SelectNone(d: seq<Entry>, info: map<string, string>, filterKeys: seq<string>)
    requires forall i :: 0 <= i < |d| ==> !Wanted(d[i].0, info, filterKeys)
    ensures Select(d, info, filterKeys) == []
  {
    if d != [] {
      SelectNone(d[1..], info, filterKeys);
    }
  }
}
