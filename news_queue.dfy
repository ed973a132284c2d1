/**
 * The news queue of the anchor screen (src/lib/news-queue.ts): news items
 * are loaded from a JSON file, or failing that from a CSV file, or failing
 * both replaced by one fallback item; items whose id was already shown are
 * set aside until every item has been shown; the rest are shuffled and
 * handed out one at a time, each handed-out id being recorded and persisted.
 *
 * The fetched files are parameters: a JSON response is given with its
 * content type and the value the JSON parser produced, a CSV response with
 * its text and the records the CSV library produced from it. The browser's
 * storage is the field `stored`, and the random choice of the shuffle is an
 * arbitrary index in the permitted range.
 */
module NewsQueue {
  import opened Wrappers

  datatype NewsItem = NewsItem(id: int, title: string, description: string)

  /** The single item the queue holds when neither file gives any news. */
  const FallbackItem: NewsItem :=
    NewsItem(1, "Breaking: Technical Difficulties at AI News Network",
             "Our AI anchors are experiencing temporary issues.")

  // ---------------------------------------------------------------------------
  // Ids

  function Ids(s: seq<NewsItem>): set<int>
  {
    set x | x in s :: x.id
  }

  /** No two items share an id: there are as many distinct ids as items. */
  predicate UniqueIds(s: seq<NewsItem>)
  {
    |Ids(s)| == |s|
  }

  predicate IncreasingIds(s: seq<NewsItem>)
  {
    forall i, j :: 0 <= i < j < |s| ==> s[i].id < s[j].id
  }

  lemma IdsCons(h: NewsItem, t: seq<NewsItem>)
    ensures Ids([h] + t) == {h.id} + Ids(t)
  {
    assert forall x :: x in [h] + t <==> x == h || x in t;
  }

  lemma {:induction false} IdsBound(s: seq<NewsItem>)
    ensures |Ids(s)| <= |s|
  {
    if s != [] {
      assert s == [s[0]] + s[1..];
      IdsCons(s[0], s[1..]);
      IdsBound(s[1..]);
    }
  }

  /** Removing the head of a list without repeated ids leaves one without, which no longer holds the head's id. */
  lemma UniqueTail(h: NewsItem, t: seq<NewsItem>)
    requires UniqueIds([h] + t)
    ensures UniqueIds(t) && h.id !in Ids(t)
  {
    IdsCons(h, t);
    IdsBound(t);
  }

  /** Unique ids in the counting sense means no two positions share an id. */
  lemma {:induction false} UniqueIdsDistinct(s: seq<NewsItem>)
    requires UniqueIds(s)
    ensures forall i, j :: 0 <= i < j < |s| ==> s[i].id != s[j].id
  {
    if s != [] {
      assert s == [s[0]] + s[1..];
      UniqueTail(s[0], s[1..]);
      UniqueIdsDistinct(s[1..]);
      forall j | 0 < j < |s|
        ensures s[0].id != s[j].id
      {
        assert s[j] in s[1..];
      }
    }
  }

  /** A head whose id the tail does not hold keeps a list without repeated ids. */
  lemma ConsUnique(h: NewsItem, t: seq<NewsItem>)
    requires UniqueIds(t) && h.id !in Ids(t)
    ensures UniqueIds([h] + t)
  {
    IdsCons(h, t);
  }

  lemma {:induction false} IncreasingIsUnique(s: seq<NewsItem>)
    requires IncreasingIds(s)
    ensures UniqueIds(s)
  {
    if s != [] {
      var t := s[1..];
      assert s == [s[0]] + t;
      assert IncreasingIds(t) by {
        forall i, j | 0 <= i < j < |t| ensures t[i].id < t[j].id {
          assert t[i] == s[i + 1] && t[j] == s[j + 1];
        }
      }
      IncreasingIsUnique(t);
      assert s[0].id !in Ids(t) by {
        forall x | x in t ensures x.id != s[0].id {
          var k :| 0 <= k < |t| && t[k] == x;
          assert x == s[k + 1];
        }
      }
      ConsUnique(s[0], t);
    }
  }

  /** Reordering a list keeps its ids and their number. */
  lemma PermutationKeepsIds(p: seq<NewsItem>, q: seq<NewsItem>)
    requires multiset(p) == multiset(q)
    ensures Ids(p) == Ids(q) && |p| == |q|
    ensures UniqueIds(p) <==> UniqueIds(q)
  {
    assert forall x :: x in p <==> x in multiset(p);
    assert forall x :: x in q <==> x in multiset(q);
    assert |multiset(p)| == |p| && |multiset(q)| == |q|;
  }

  // ---------------------------------------------------------------------------
  // JSON normalisation

  /**
   * One element of the parsed JSON array. `JNull` is null or undefined, whose
   * `.title` throws; any other value has a title that is a non-empty string or
   * counts as no title, and a description that is a string or not.
   */
  datatype JsonElement = JNull | JValue(title: Option<string>, description: Option<string>)

  datatype JsonBody = Malformed | NotArray | Array(elements: seq<JsonElement>)

  /** The JSON fetch: failed or not OK, or OK with its content type and parsed body. */
  datatype JsonResponse = JsonNotOk | JsonOk(contentType: Option<string>, body: JsonBody)

  /** `item.title || ''` for titles that are strings or absent. */
  function TitleText(title: Option<string>): string
  {
    if title.Some? then title.value else ""
  }

  /** `typeof description === 'string' ? description : ''`. */
  function DescriptionText(description: Option<string>): string
  {
    if description.Some? then description.value else ""
  }

  /** The item an element at 0-based position `k` becomes: its id is `k + 1`. */
  function JsonItem(e: JsonElement, k: nat): NewsItem
    requires e.JValue?
  {
    NewsItem(k + 1, TitleText(e.title), DescriptionText(e.description))
  }

  /** The `map` step: every element numbered by its position, before anything is dropped. */
  function NumberJson(es: seq<JsonElement>): (items: seq<NewsItem>)
    requires JNull !in es
    ensures |items| == |es|
    ensures forall k :: 0 <= k < |items| ==> items[k].id == k + 1
  {
    seq(|es|, k requires 0 <= k < |es| => JsonItem(es[k], k))
  }

  /** Keeping the head in front of items drawn from the tail keeps ids increasing. */
  lemma HeadBeforeTail(items: seq<NewsItem>, rest: seq<NewsItem>)
    requires items != [] && forall x :: x in rest ==> x in items[1..]
    ensures IncreasingIds(items) && IncreasingIds(rest) ==> IncreasingIds([items[0]] + rest)
  {
    if IncreasingIds(items) && IncreasingIds(rest) {
      forall j | 0 <= j < |rest|
        ensures items[0].id < rest[j].id
      {
        assert rest[j] in items[1..];
      }
    }
  }

  /** The `filter` step: items with an empty title are dropped, the others kept in order. */
  function WithTitle(items: seq<NewsItem>): (r: seq<NewsItem>)
    ensures forall x :: x in r <==> x in items && x.title != ""
    ensures IncreasingIds(items) ==> IncreasingIds(r)
  {
    if items == [] then []
    else
      var rest := WithTitle(items[1..]);
      assert forall x :: x in items <==> x == items[0] || x in items[1..];
      if items[0].title != "" then
        HeadBeforeTail(items, rest);
        [items[0]] + rest
      else rest
  }

  /** Normalising the parsed array: `None` when an element is null, the `map` then `filter` otherwise. */
  function NormalizeJson(es: seq<JsonElement>): Option<seq<NewsItem>>
  {
    if JNull in es then None else Some(WithTitle(NumberJson(es)))
  }

  /**
   * The ids of normalised JSON items are 1-based positions in the array, strictly
   * increasing (gaps where items were dropped); every kept item is exactly what its
   * element maps to and has a title, and every element with a title is kept.
   */
  lemma JsonNormalization(es: seq<JsonElement>)
    requires NormalizeJson(es).Some?
    ensures var r := NormalizeJson(es).value;
      && IncreasingIds(r) && UniqueIds(r)
      && (forall x :: x in r ==> 1 <= x.id <= |es| && x == JsonItem(es[x.id - 1], x.id - 1) && x.title != "")
      && (forall k :: 0 <= k < |es| && TitleText(es[k].title) != "" ==> JsonItem(es[k], k) in r)
  {
    var items := NumberJson(es);
    assert IncreasingIds(items);
    IncreasingIsUnique(WithTitle(items));
    forall x | x in WithTitle(items)
      ensures 1 <= x.id <= |es| && x == JsonItem(es[x.id - 1], x.id - 1)
    {
      var k :| 0 <= k < |items| && items[k] == x;
    }
    forall k | 0 <= k < |es| && TitleText(es[k].title) != ""
      ensures JsonItem(es[k], k) in WithTitle(items)
    {
      assert items[k] == JsonItem(es[k], k);
    }
  }

  /** `part` occurs in `s` starting at position `i`. */
  predicate OccursAt(s: string, part: string, i: int)
  {
    0 <= i <= |s| - |part| && s[i..i + |part|] == part
  }

  /** When `s` does not start with `part`, `part` occurs in `s` exactly when it occurs in `s` minus its first character. */
  lemma OccursShift(s: string, part: string)
    requires s != [] && !(part <= s)
    ensures (exists i :: OccursAt(s, part, i)) <==> (exists i :: OccursAt(s[1..], part, i))
  {
    if i :| OccursAt(s, part, i) {
      assert s[1..][i - 1..i - 1 + |part|] == s[i..i + |part|];
      assert OccursAt(s[1..], part, i - 1);
    }
    if i :| OccursAt(s[1..], part, i) {
      assert s[1..][i..i + |part|] == s[i + 1..i + 1 + |part|];
      assert OccursAt(s, part, i + 1);
    }
  }

  /** Substring test, `includes`. */
  function Contains(s: string, part: string): bool
  {
    part <= s || (s != [] && Contains(s[1..], part))
  }

  /** `includes` is true exactly when `part` occurs at some position of `s`. */
  lemma {:induction false} ContainsOccurs(s: string, part: string)
    ensures Contains(s, part) <==> exists i :: OccursAt(s, part, i)
  {
    if part <= s {
      assert OccursAt(s, part, 0);
    } else if s != [] {
      OccursShift(s, part);
      ContainsOccurs(s[1..], part);
    }
  }

  /** The JSON loader: an empty list on any failure, the normalised items otherwise. */
  function LoadJsonNews(response: JsonResponse): seq<NewsItem>
  {
    match response
    case JsonNotOk => []
    case JsonOk(contentType, body) =>
      if contentType.Some? && Contains(contentType.value, "text/html") then []
      else
        match body
        case Array(es) => if NormalizeJson(es).Some? then NormalizeJson(es).value else []
        case _ => []
  }

  /** Items loaded from JSON have increasing, hence distinct, ids; an HTML response gives none. */
  lemma JsonLoadFacts(response: JsonResponse)
    ensures IncreasingIds(LoadJsonNews(response)) && UniqueIds(LoadJsonNews(response))
    ensures response.JsonOk? && response.contentType.Some? && Contains(response.contentType.value, "text/html")
            ==> LoadJsonNews(response) == []
  {
    if response.JsonOk? && response.body.Array? && NormalizeJson(response.body.elements).Some? {
      JsonNormalization(response.body.elements);
    }
  }

  // ---------------------------------------------------------------------------
  // CSV normalisation

  /** One record the CSV library produced: falsy, or with a title and a description that are strings or not. */
  datatype CsvRecord = NoRecord | CsvFields(title: Option<string>, description: Option<string>)

  /** The CSV fetch: failed or not OK, or OK with its text and the records parsed from it (`None` when parsing rejects). */
  datatype CsvResponse = CsvNotOk | CsvOk(text: string, records: Option<seq<CsvRecord>>)

  /**
   * `replace(/^"|"$/g, '')`: one double quote is removed from the start and one
   * from the end of what remains, so a lone `"` becomes empty.
   */
  function StripQuotes(s: string): (r: string)
    ensures |s| - 2 <= |r| <= |s|
  {
    var a := if s != [] && s[0] == '"' then s[1..] else s;
    if a != [] && a[|a| - 1] == '"' then a[..|a| - 1] else a
  }

  /** Only the two ends are touched: the result is what lies between them. */
  lemma StripQuotesSlice(s: string)
    ensures var lo := if s != [] && s[0] == '"' then 1 else 0;
      var hi := if |s| > lo && s[|s| - 1] == '"' then |s| - 1 else |s|;
      lo <= hi && StripQuotes(s) == s[lo..hi]
  {
    var lo := if s != [] && s[0] == '"' then 1 else 0;
    var a := s[lo..];
    assert a == if s != [] && s[0] == '"' then s[1..] else s;
    if a != [] && a[|a| - 1] == '"' {
      assert a[..|a| - 1] == s[lo..|s| - 1];
    }
  }

  /** A field wrapped in quotes loses exactly the wrapping, whatever it holds itself. */
  lemma StripQuotesWrapped(t: string)
    ensures StripQuotes("\"" + t + "\"") == t
  {
    var s := "\"" + t + "\"";
    assert s[1..] == t + "\"";
    assert (t + "\"")[..|t|] == t;
  }

  /** A field without quotes at either end is left unchanged. */
  lemma StripQuotesPlain(s: string)
    requires s == [] || (s[0] != '"' && s[|s| - 1] != '"')
    ensures StripQuotes(s) == s
  {
  }

  /** The records the loader keeps: `item && typeof item.title === 'string'`. */
  function Kept(records: seq<CsvRecord>): (r: seq<CsvRecord>)
    ensures forall x :: x in r <==> x in records && x.CsvFields? && x.title.Some?
    ensures |r| <= |records|
  {
    if records == [] then []
    else
      assert forall x :: x in records <==> x == records[0] || x in records[1..];
      (if records[0].CsvFields? && records[0].title.Some? then [records[0]] else []) + Kept(records[1..])
  }

  /** A single record is kept exactly when it is present and its title is a string. */
  lemma KeptOne(record: CsvRecord)
    ensures Kept([record]) == if record.CsvFields? && record.title.Some? then [record] else []
  {
    assert [record][1..] == [];
  }

  /**
   * `filter` works position by position: the records kept from two lists one after the other
   * are those kept from the first followed by those kept from the second. With `KeptOne`
   * this fixes the result completely, repeated records and order included.
   */
  lemma {:induction false} KeptAppend(a: seq<CsvRecord>, b: seq<CsvRecord>)
    ensures Kept(a + b) == Kept(a) + Kept(b)
  {
    if a == [] {
      assert a + b == b;
    } else {
      assert (a + b)[1..] == a[1..] + b;
      KeptAppend(a[1..], b);
    }
  }

  function CsvItem(record: CsvRecord, k: nat): NewsItem
    requires record.CsvFields? && record.title.Some?
  {
    NewsItem(k + 1, StripQuotes(record.title.value),
             if record.description.Some? then StripQuotes(record.description.value) else "")
  }

  /** Filter first, then number: the kept records get the ids 1..n in order, their fields with the quotes stripped. */
  function NormalizeCsv(records: seq<CsvRecord>): (items: seq<NewsItem>)
    ensures |items| == |Kept(records)|
    ensures forall i :: 0 <= i < |items| ==> items[i].id == i + 1
    ensures forall i :: 0 <= i < |items| ==>
      var record := Kept(records)[i];
      && items[i].title == StripQuotes(record.title.value)
      && items[i].description == (if record.description.Some? then StripQuotes(record.description.value) else "")
  {
    var kept := Kept(records);
    seq(|kept|, i requires 0 <= i < |kept| => CsvItem(kept[i], i))
  }

  /** JavaScript white space as `trim` removes it. */
  predicate IsJsWhitespace(c: char)
  {
    || c == ' ' || c == '\t' || c == '\n' || c == '\r' || c == '\U{000B}' || c == '\U{000C}'
    || c == '\U{00A0}' || c == '\U{1680}' || ('\U{2000}' <= c <= '\U{200A}')
    || c == '\U{2028}' || c == '\U{2029}' || c == '\U{202F}' || c == '\U{205F}'
    || c == '\U{3000}' || c == '\U{FEFF}'
  }

  function TrimStart(s: string): (r: string)
    ensures r == [] || !IsJsWhitespace(r[0])
    ensures |r| <= |s| && r == s[|s| - |r|..]
    ensures forall k :: 0 <= k < |s| - |r| ==> IsJsWhitespace(s[k])
  {
    if s != [] && IsJsWhitespace(s[0]) then TrimStart(s[1..]) else s
  }

  /** `text.trim().startsWith('<') || text.includes('<!DOCTYPE')`: an error page served in place of the file. */
  predicate LooksLikeHtml(text: string)
  {
    var t := TrimStart(text);
    (t != [] && t[0] == '<') || Contains(text, "<!DOCTYPE")
  }

  /** The CSV loader: an empty list on any failure or on HTML, the normalised records otherwise. */
  function LoadCsvNews(response: CsvResponse): (items: seq<NewsItem>)
    ensures response.CsvOk? && LooksLikeHtml(response.text) ==> items == []
  {
    match response
    case CsvNotOk => []
    case CsvOk(text, records) =>
      if LooksLikeHtml(text) then []
      else if records.None? then []
      else NormalizeCsv(records.value)
  }

  /** Items loaded from CSV are numbered 1..n, so their ids are distinct; past the checks they are the normalised records. */
  lemma CsvLoadFacts(response: CsvResponse)
    ensures var items := LoadCsvNews(response);
      && (forall i :: 0 <= i < |items| ==> items[i].id == i + 1)
      && UniqueIds(items)
    ensures response.CsvOk? && !LooksLikeHtml(response.text) && response.records.Some? ==>
      LoadCsvNews(response) == NormalizeCsv(response.records.value)
  {
    var items := LoadCsvNews(response);
    assert IncreasingIds(items);
    IncreasingIsUnique(items);
  }

  // ---------------------------------------------------------------------------
  // Choosing what to show

  /** The items whose id has not been shown yet, in order. */
  function Unused(items: seq<NewsItem>, used: set<int>): (r: seq<NewsItem>)
    ensures forall x :: x in r <==> x in items && x.id !in used
    ensures multiset(r) <= multiset(items)
  {
    if items == [] then []
    else
      assert items == [items[0]] + items[1..];
      assert forall x :: x in items <==> x == items[0] || x in items[1..];
      (if items[0].id in used then [] else [items[0]]) + Unused(items[1..], used)
  }

  /** Leaving items out cannot create a repeated id. */
  lemma {:induction false} UnusedUnique(items: seq<NewsItem>, used: set<int>)
    ensures UniqueIds(items) ==> UniqueIds(Unused(items, used))
  {
    if items != [] && UniqueIds(items) {
      var rest := Unused(items[1..], used);
      assert items == [items[0]] + items[1..];
      UniqueTail(items[0], items[1..]);
      UnusedUnique(items[1..], used);
      if items[0].id !in used {
        IdsCons(items[0], rest);
        assert Ids(rest) <= Ids(items[1..]);
        assert Unused(items, used) == [items[0]] + rest;
      } else {
        assert Unused(items, used) == rest;
      }
    }
  }

  /** The items shuffled into the queue: the unused ones, or all of them once none is left. */
  function Pool(items: seq<NewsItem>, used: set<int>): (pool: seq<NewsItem>)
    ensures items != [] ==> pool != []
    ensures UniqueIds(items) ==> UniqueIds(pool)
    ensures multiset(pool) <= multiset(items)
    ensures Unused(items, used) != [] ==> forall x :: x in pool ==> x.id !in used
  {
    UnusedUnique(items, used);
    if Unused(items, used) == [] then
      items
    else
      Unused(items, used)
  }

  /** The items loading hands to `processNewsItems`: the JSON items, else the CSV items; empty when both fail. */
  function Loaded(json: JsonResponse, csv: CsvResponse): (items: seq<NewsItem>)
    ensures UniqueIds(items)
  {
    JsonLoadFacts(json);
    CsvLoadFacts(csv);
    if LoadJsonNews(json) != [] then LoadJsonNews(json) else LoadCsvNews(csv)
  }

  /** The queue itself; `stored` is the storage entry holding the used ids (`None` once it is removed). */
  class NewsQueue {
    var queue: seq<NewsItem>
    var usedIds: set<int>
    var stored: Option<set<int>>

    /** The storage entry mirrors the used ids, or is absent while none is recorded. */
    predicate Valid()
      reads this
    {
      stored == Some(usedIds) || (stored == None && usedIds == {})
    }

    /** Nothing waiting in the queue has been shown or is waiting twice. */
    predicate Fresh()
      reads this
    {
      UniqueIds(queue) && Ids(queue) !! usedIds
    }

    /** The used ids come from the saved list when there is one. Loading is started by the caller. */
    constructor(saved: Option<seq<int>>)
      ensures queue == []
      ensures usedIds == (if saved.Some? then set x | x in saved.value else {})
      ensures stored == (if saved.Some? then Some(usedIds) else None)
      ensures Valid()
    {
      queue := [];
      usedIds := if saved.Some? then set x | x in saved.value else {};
      stored := if saved.Some? then Some(set x | x in saved.value) else None;
    }

    /** Writes the used ids to storage. */
    method SaveUsedIds()
      modifies this
      ensures stored == Some(usedIds)
      ensures queue == old(queue) && usedIds == old(usedIds)
      ensures Valid()
    {
      stored := Some(usedIds);
    }

    /** Forgets every used id, in memory and in storage. */
    method ClearUsedIds()
      modifies this
      ensures usedIds == {} && stored == None
      ensures queue == old(queue)
      ensures Valid()
    {
      usedIds := {};
      stored := None;
    }

    /** Fisher–Yates, from the last cell down: cell `i` is swapped with an arbitrary cell `j` in `0..i`. */
    method ShuffleArray<T>(a: array<T>)
      modifies a
      ensures multiset(a[..]) == multiset(old(a[..]))
    {
      var i := a.Length - 1;
      while i > 0
        invariant -1 <= i < a.Length
        invariant multiset(a[..]) == multiset(old(a[..]))
      {
        var j :| 0 <= j <= i;
        a[i], a[j] := a[j], a[i];
        i := i - 1;
      }
    }

    /**
     * The queue becomes a shuffle of the unused items, the used ids staying as they are;
     * when every item has been used, the used ids are cleared and all items are shuffled.
     */
    method ProcessNewsItems(items: seq<NewsItem>)
      requires Valid()
      modifies this
      ensures Unused(items, old(usedIds)) != [] ==>
                multiset(queue) == multiset(Unused(items, old(usedIds)))
                && usedIds == old(usedIds) && stored == old(stored)
      ensures Unused(items, old(usedIds)) == [] ==>
                multiset(queue) == multiset(items) && usedIds == {} && stored == None
      ensures multiset(queue) == multiset(Pool(items, old(usedIds)))
      ensures Valid()
      ensures UniqueIds(items) ==> Fresh()
    {
      var filtered := Unused(items, usedIds);
      var pool := filtered;
      if |filtered| == 0 {
        ClearUsedIds();
        pool := items;
      }
      var a := new NewsItem[|pool|](i requires 0 <= i < |pool| => pool[i]);
      assert a[..] == pool;
      ShuffleArray(a);
      queue := a[..];
      PermutationKeepsIds(pool, queue);
    }

    /** What loading leaves behind, given the state before it; the queue is never left empty. */
    ghost predicate LoadedFrom(json: JsonResponse, csv: CsvResponse, used: set<int>, saved: Option<set<int>>)
      reads this
    {
      var items := Loaded(json, csv);
      if items == [] then
        queue == [FallbackItem] && usedIds == used && stored == saved
      else
        && multiset(queue) == multiset(Pool(items, used))
        && usedIds == (if Unused(items, used) == [] then {} else used)
        && stored == (if Unused(items, used) == [] then None else saved)
    }

    /**
     * JSON first, then CSV, then the fallback item. When `loadInProgress` (an earlier
     * call has not finished) nothing happens.
     */
    method LoadNews(loadInProgress: bool, json: JsonResponse, csv: CsvResponse)
      requires Valid()
      modifies this
      ensures loadInProgress ==> queue == old(queue) && usedIds == old(usedIds) && stored == old(stored)
      ensures !loadInProgress ==> LoadedFrom(json, csv, old(usedIds), old(stored)) && queue != []
      ensures !loadInProgress && Loaded(json, csv) == [] ==> queue == [FallbackItem]
      ensures !loadInProgress && Loaded(json, csv) != [] ==> Fresh()
      ensures Valid()
    {
      if loadInProgress {
        return;
      }
      var jsonNews := LoadJsonNews(json);
      if |jsonNews| > 0 {
        assert Loaded(json, csv) == jsonNews;
        ProcessNewsItems(jsonNews);
        return;
      }
      var csvNews := LoadCsvNews(csv);
      if |csvNews| > 0 {
        assert Loaded(json, csv) == csvNews;
        ProcessNewsItems(csvNews);
        return;
      }
      assert Loaded(json, csv) == [];
      queue := [FallbackItem];
    }

    /**
     * Hands out the head of the queue, loading first when the queue is empty: the head
     * is removed, the rest keep their order, and its id is recorded and saved. `None`
     * only when the queue is still empty, because a load was already in progress.
     * `before` is the queue the head is taken from.
     */
    method GetCurrentNews(loadInProgress: bool, json: JsonResponse, csv: CsvResponse)
      returns (current: Option<NewsItem>, ghost before: seq<NewsItem>)
      requires Valid()
      modifies this
      ensures old(queue) != [] ==> before == old(queue)
      ensures old(queue) == [] && !loadInProgress ==> before != []
      ensures current.None? <==> old(queue) == [] && loadInProgress
      ensures current.None? ==> queue == old(queue) && usedIds == old(usedIds) && stored == old(stored)
      ensures current.Some? ==> current.value == before[0] && queue == before[1..]
      ensures current.Some? ==> current.value.id in usedIds && stored == Some(usedIds)
      ensures old(queue) != [] ==> usedIds == old(usedIds) + {current.value.id}
      ensures old(queue) != [] && old(Fresh()) ==> current.value.id !in old(usedIds) && Fresh()
      ensures old(queue) == [] && !loadInProgress ==>
                var items := Loaded(json, csv);
                && multiset(before) == multiset(if items == [] then [FallbackItem] else Pool(items, old(usedIds)))
                && usedIds == (if items != [] && Unused(items, old(usedIds)) == [] then {} else old(usedIds))
                              + {current.value.id}
                && Fresh()
      ensures old(queue) == [] && !loadInProgress && Loaded(json, csv) == [] ==> current == Some(FallbackItem)
      ensures old(queue) == [] && !loadInProgress && Loaded(json, csv) != [] ==> current.value in Loaded(json, csv)
      ensures old(queue) == [] && !loadInProgress && Unused(Loaded(json, csv), old(usedIds)) != [] ==>
                current.value.id !in old(usedIds)
      ensures Valid()
    {
      ghost var refilled := |queue| == 0 && !loadInProgress;
      if |queue| == 0 {
        LoadNews(loadInProgress, json, csv);
      }
      before := queue;
      if |queue| == 0 {
        return None, before;
      }
      ghost var wasFresh := Fresh();
      var head := queue[0];
      if refilled && Loaded(json, csv) != [] {
        assert head in multiset(before);
        assert head in multiset(Pool(Loaded(json, csv), old(usedIds)));
      }
      queue := queue[1..];
      if wasFresh {
        assert before == [head] + queue;
        UniqueTail(head, queue);
        assert Ids(queue) <= Ids(before);
      } else if queue == [] {
        assert Ids(queue) == {};
      }
      usedIds := usedIds + {head.id};
      SaveUsedIds();
      current := Some(head);
    }

    /** Drops the head of a non-empty queue; the used ids are not touched. */
    method RemoveCurrentNews()
      modifies this
      ensures old(queue) != [] ==> queue == old(queue)[1..]
      ensures old(queue) == [] ==> queue == []
      ensures usedIds == old(usedIds) && stored == old(stored)
      ensures old(Fresh()) ==> Fresh()
    {
      if |queue| > 0 {
        if Fresh() {
          assert queue == [queue[0]] + queue[1..];
          UniqueTail(queue[0], queue[1..]);
          assert Ids(queue[1..]) <= Ids(queue);
        }
        queue := queue[1..];
      }
    }
  }
}
