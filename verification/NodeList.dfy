/**
 What an operator writes as NODES and what the proxy makes of it, told from the texts: ids and urls with
 white space around them and slashes after the urls, separated by commas, with blank entries between.
 */
module NodeList {
  import opened Prelude
  import opened Text
  import opened Config

  /** One entry as it is written: an id and a url with what may stand around them, or nothing but white space. */
  datatype Item =
    | Named(left: string, id: string, afterId: string, beforeUrl: string, url: string, slashes: nat, right: string)
    | Blank(spaces: string)

  function Slashes(n: nat): string { seq(n, _ => '/') }

  function TextOf(item: Item): string {
    match item
    case Named(left, id, afterId, beforeUrl, url, slashes, right) =>
      left + id + afterId + "=" + beforeUrl + url + Slashes(slashes) + right
    case Blank(spaces) => spaces
  }

  /** The id has no sign that separates; the url has no comma and no slash at its end. */
  predicate Proper(item: Item) {
    match item
    case Named(left, id, afterId, beforeUrl, url, _, right) =>
      && AllSpace(left) && AllSpace(afterId) && AllSpace(beforeUrl) && AllSpace(right)
      && id != "" && Trimmed(id) && '=' !in id && ',' !in id
      && url != "" && Trimmed(url) && ',' !in url && url[|url| - 1] != '/'
    case Blank(spaces) => AllSpace(spaces)
  }

  function Texts(items: seq<Item>): (texts: seq<string>)
    ensures |texts| == |items| && forall i :: 0 <= i < |items| ==> texts[i] == TextOf(items[i])
  {
    if items == [] then [] else Texts(items[..|items| - 1]) + [TextOf(items[|items| - 1])]
  }

  /** A node by its id and its url. */
  datatype Name = Name(id: string, url: string)

  /** The nodes named, in order. */
  function NamesIn(items: seq<Item>): seq<Name> {
    if items == [] then [] else
      var last := items[|items| - 1];
      NamesIn(items[..|items| - 1]) + if last.Named? then [Name(last.id, last.url)] else []
  }

  function PairsOf(names: seq<Name>): (pairs: seq<Pair>)
    ensures |pairs| == |names| && forall i :: 0 <= i < |names| ==> pairs[i] == Pair(names[i].id, names[i].url)
  {
    seq(|names|, i requires 0 <= i < |names| => Pair(names[i].id, names[i].url))
  }

  // ---------------------------------------------------------------- one entry

  lemma {:induction false} SlashedUrl(url: string, n: nat)
    requires url != "" && Trimmed(url)
    ensures url + Slashes(n) != "" && Trimmed(url + Slashes(n))
  {
    var s := url + Slashes(n);
    assert s[0] == url[0];
    assert s[|s| - 1] == if n == 0 then url[|url| - 1] else '/';
  }

  lemma {:induction false} NoSign(s: string, c: char)
    requires AllSpace(s) && !IsSpace(c)
    ensures c !in s
  {
  }

  /** Between the outer white space the entry is an id, the first equals sign and a url. */
  lemma {:induction false} EntryRead(item: Item)
    requires Proper(item) && item.Named?
    ensures TrimSpace(TextOf(item)) != "" && ReadPair(TrimSpace(TextOf(item))) == Pair(item.id, item.url)
  {
    EntryTrimmed(item);
    CoreRead(item);
  }

  /** An entry without the white space around it. */
  function Core(item: Item): string
    requires item.Named?
  {
    (item.id + item.afterId) + ['='] + (item.beforeUrl + (item.url + Slashes(item.slashes)))
  }

  lemma {:induction false} CoreRead(item: Item)
    requires Proper(item) && item.Named?
    ensures Core(item) != "" && ReadPair(Core(item)) == Pair(item.id, item.url)
  {
    SlashedUrl(item.url, item.slashes);
    TrimSuffixesTakes(item.url, '/', item.slashes);
    PartsRead(item.id, item.afterId, item.beforeUrl, item.url + Slashes(item.slashes));
    assert |Core(item)| >= |item.id|;
  }

  lemma {:induction false} PartsRead(id: string, afterId: string, beforeUrl: string, tail: string)
    requires id != "" && Trimmed(id) && '=' !in id && tail != "" && Trimmed(tail)
    requires AllSpace(afterId) && AllSpace(beforeUrl)
    ensures ReadPair((id + afterId) + ['='] + (beforeUrl + tail)) == Pair(id, TrimSuffixes(tail, '/'))
  {
    NoSign(afterId, '=');
    TrimAfter(id, afterId);
    TrimBefore(beforeUrl, tail);
    PairRead(id + afterId, beforeUrl + tail);
  }

  lemma {:induction false} PairRead(l: string, r: string)
    requires '=' !in l && TrimSpace(l) != "" && TrimSpace(r) != ""
    ensures ReadPair(l + ['='] + r) == Pair(TrimSpace(l), TrimSuffixes(TrimSpace(r), '/'))
  {
    CutAt(l, r, '=');
  }

  lemma {:induction false} EntryTrimmed(item: Item)
    requires Proper(item) && item.Named?
    ensures TrimSpace(TextOf(item)) == Core(item)
  {
    var tail := item.url + Slashes(item.slashes);
    var l, r := item.id + item.afterId, item.beforeUrl + tail;
    var entry := l + ['='] + r;
    SlashedUrl(item.url, item.slashes);
    assert entry[0] == item.id[0] && entry[|entry| - 1] == tail[|tail| - 1];
    assert TextOf(item) == item.left + entry + item.right;
    TrimPadding(item.left, entry, item.right);
  }

  lemma {:induction false} BlankSkipped(item: Item)
    requires Proper(item) && item.Blank?
    ensures TrimSpace(TextOf(item)) == ""
  {
    assert item.spaces == item.spaces + "" + "";
    TrimPadding(item.spaces, "", "");
  }

  lemma {:induction false} NoComma(item: Item)
    requires Proper(item)
    ensures ',' !in TextOf(item)
  {
    if item.Named? {
      NoSign(item.left, ',');
      NoSign(item.afterId, ',');
      NoSign(item.beforeUrl, ',');
      NoSign(item.right, ',');
    } else {
      NoSign(item.spaces, ',');
    }
  }

  /** An entry that is no id and url: without a sign, or with nothing but white space on one side of the first one. */
  lemma {:induction false} EntryRejected(l: string, r: string)
    ensures '=' !in l ==> ReadPair(l) == Malformed(l)
    ensures '=' !in l ==>
              (ReadPair(l + "=" + r).Malformed? <==> AllSpace(l) || AllSpace(r))
              && (ReadPair(l + "=" + r).Malformed? ==> ReadPair(l + "=" + r) == Malformed(l + "=" + r))
  {
    if '=' !in l {
      CutAt(l, r, '=');
      assert l + "=" + r == l + ['='] + r;
      TrimsToNothing(l);
      TrimsToNothing(r);
    }
  }

  lemma {:induction false} TrimsToNothing(s: string)
    ensures TrimSpace(s) == "" <==> AllSpace(s)
  {
    var a, b := TrimTakes(s);
    if TrimSpace(s) == "" {
      assert s == a + b;
    } else {
      assert s[|a|] == TrimSpace(s)[0] && s[|a|] in s;
    }
  }

  // ---------------------------------------------------------------- the whole list

  lemma {:induction false} EntriesOfTexts(items: seq<Item>)
    requires forall item :: item in items ==> Proper(item)
    ensures Entries(Texts(items)) == PairsOf(NamesIn(items))
  {
    if items == [] {
    } else {
      var last := |items| - 1;
      assert items[last] in items;
      EntriesOfTexts(items[..last]);
      assert Texts(items)[..last] == Texts(items[..last]);
      if items[last].Named? { EntryRead(items[last]); } else { BlankSkipped(items[last]); }
    }
  }

  /** The text an operator writes. */
  function Written(items: seq<Item>): string { Join(Texts(items), ',') }

  lemma {:induction false} WrittenIsRead(items: seq<Item>)
    requires items != [] && forall item :: item in items ==> Proper(item)
    ensures Entries(Split(Written(items), ',')) == PairsOf(NamesIn(items))
  {
    forall t | t in Texts(items) ensures ',' !in t {
      var i :| 0 <= i < |items| && Texts(items)[i] == t;
      NoComma(items[i]);
    }
    SplitJoined(Texts(items), ',');
    EntriesOfTexts(items);
  }

  /** No id is written twice. */
  ghost predicate Different(names: seq<Name>) {
    forall i, j :: 0 <= i < j < |names| ==> names[i].id != names[j].id
  }

  /**
   Reading back what was written: the proxy takes the list exactly if it names a node and none twice, and
   then it has just those ids, in the order written, each with just its url.
   */
  method ReadWritten(items: seq<Item>) returns (r: Result<Nodes, ConfigError>)
    requires items != [] && forall item :: item in items ==> Proper(item)
    ensures r.Ok? <==> NamesIn(items) != [] && Different(NamesIn(items))
    ensures r.Ok? ==>
              && |r.value.ids| == |NamesIn(items)|
              && (forall i :: 0 <= i < |NamesIn(items)| ==>
                    && r.value.ids[i] == NamesIn(items)[i].id
                    && r.value.ids[i] in r.value.addresses
                    && r.value.addresses[r.value.ids[i]] == NamesIn(items)[i].url)
              && (forall id :: id in r.value.addresses ==> id in r.value.ids)
  {
    WrittenIsRead(items);
    assert Usable(PairsOf(NamesIn(items))) <==> Different(NamesIn(items));
    r := LoadNodes(Written(items));
  }
}
