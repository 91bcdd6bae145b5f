/** The tagging helper of a static-site generator: a tag index computed on
    demand over a caller-supplied list of content items. */
module TaggingExtra {
  import opened Wrappers
  import opened RubyCore

  type Tag = string

  /** What an item's content is: whatever the site already gave it, or the
      deferred instruction to render the `section` partial for one tag. */
  datatype Content = Given | RenderSection(tag: Tag)

  /** A content item, projected onto what the helper reads and writes: its
      `:tags` attribute (absent is `nil`), its `:title`, its identifier and its
      `:binary` flag. */
  datatype Item = Item(content: Content, title: string, identifier: string, tags: Option<seq<Tag>>, binary: bool)

  /** An item's tags, an absent list read as no tags. */
  function TagsOf(item: Item): seq<Tag> {
    item.tags.GetOr([])
  }

  /** `items.map { |i| i[:tags] }.flatten` with the `nil` entries deleted: the
      present tag lists, concatenated in item order. */
  function AllTags(items: seq<Item>): seq<Tag> {
    if |items| == 0 then [] else AllTags(items[..|items| - 1]) + TagsOf(items[|items| - 1])
  }

  /** Total number of tags over all items, counted item by item. */
  function TagTotal(items: seq<Item>): nat {
    if |items| == 0 then 0 else TagTotal(items[..|items| - 1]) + |TagsOf(items[|items| - 1])|
  }

  /** `has_tag?`: false when the item has no tag list, otherwise whether the
      tag is an element of it. */
  predicate HasTag(item: Item, tag: Tag)
    ensures item.tags.None? ==> !HasTag(item, tag)
    ensures HasTag(item, tag) <==> tag in TagsOf(item)
  {
    if item.tags.None? then false else tag in item.tags.value
  }

  /** Flattening distributes over concatenation of item lists. */
  lemma {:induction false} AllTagsAppend(a: seq<Item>, b: seq<Item>)
    ensures AllTags(a + b) == AllTags(a) + AllTags(b)
    ensures TagTotal(a + b) == TagTotal(a) + TagTotal(b)
    decreases |b|
  {
    if |b| == 0 {
      assert a + b == a;
    } else {
      var p := b[..|b| - 1];
      assert a + b == (a + p) + [b[|b| - 1]];
      assert (a + b)[..|a + b| - 1] == a + p;
      AllTagsAppend(a, p);
    }
  }

  /** A tag occurs in the flattened tags iff some item carries it. */
  lemma {:induction false} AllTagsMembership(items: seq<Item>, t: Tag)
    ensures t in AllTags(items) <==> exists i :: 0 <= i < |items| && HasTag(items[i], t)
  {
    if |items| > 0 {
      var p := items[..|items| - 1];
      AllTagsMembership(p, t);
      if t in AllTags(p) {
        var i :| 0 <= i < |p| && HasTag(p[i], t);
        assert items[i] == p[i];
      }
      if exists i :: 0 <= i < |items| && HasTag(items[i], t) {
        var i :| 0 <= i < |items| && HasTag(items[i], t);
        if i < |p| {
          assert p[i] == items[i];
        }
      }
    }
  }

  /** The flattened tag list is as long as the item-by-item tag total. */
  lemma {:induction false} AllTagsLength(items: seq<Item>)
    ensures |AllTags(items)| == TagTotal(items)
  {
    if |items| > 0 {
      AllTagsLength(items[..|items| - 1]);
    }
  }

  /** `tag_set`: the distinct tags of all items, in first-occurrence order. */
  function TagSet(items: seq<Item>): seq<Tag> {
    Uniq(AllTags(items))
  }

  /** `tag_set` holds every tag once, holds a tag iff some item carries it, and
      lists the tags in the order in which they first occur in the flattened
      tag lists, without reordering them. */
  lemma TagSetSpec(items: seq<Item>)
    ensures Distinct(TagSet(items))
    ensures forall t :: t in TagSet(items) <==> exists i :: 0 <= i < |items| && HasTag(items[i], t)
    ensures forall i, j :: 0 <= i < j < |TagSet(items)| ==>
      IndexOf(AllTags(items), TagSet(items)[i]) < IndexOf(AllTags(items), TagSet(items)[j])
    ensures IsSubsequence(TagSet(items), AllTags(items))
  {
    forall t ensures t in TagSet(items) <==> exists i :: 0 <= i < |items| && HasTag(items[i], t) {
      AllTagsMembership(items, t);
    }
    UniqFirstOccurrenceOrder(AllTags(items));
    UniqIsSubsequence(AllTags(items));
  }

  /** `has_tag?` agrees with `tag_set` on a single item: an item carries a tag
      iff that tag is in the item's own tag set. */
  lemma HasTagIffInOwnTagSet(item: Item, t: Tag)
    ensures HasTag(item, t) <==> t in TagSet([item])
  {
    AllTagsMembership([item], t);
  }

  /** `items_with_tag`: the items that carry `tag`, in their original order. */
  function ItemsWithTag(tag: Tag, items: seq<Item>): (r: seq<Item>)
    ensures forall k :: 0 <= k < |r| ==> HasTag(r[k], tag)
    ensures forall k :: 0 <= k < |items| && HasTag(items[k], tag) ==> items[k] in r
  {
    if |items| == 0 then []
    else (if HasTag(items[0], tag) then [items[0]] else []) + ItemsWithTag(tag, items[1..])
  }

  /** `items_with_tag` keeps the input order and keeps every matching item as
      often as it occurs, and no other item. */
  lemma {:induction false} ItemsWithTagIsFilter(tag: Tag, items: seq<Item>)
    ensures IsSubsequence(ItemsWithTag(tag, items), items)
    ensures forall it :: multiset(ItemsWithTag(tag, items))[it] ==
                         if HasTag(it, tag) then multiset(items)[it] else 0
  {
    if |items| > 0 {
      var r, rest := ItemsWithTag(tag, items), ItemsWithTag(tag, items[1..]);
      ItemsWithTagIsFilter(tag, items[1..]);
      assert items == [items[0]] + items[1..];
      if HasTag(items[0], tag) {
        assert r[1..] == rest;
      } else {
        assert r == rest;
      }
    }
  }

  /** `count_tags`: each tag mapped to its number of occurrences. */
  function CountTags(items: seq<Item>): map<Tag, nat> {
    Tally(AllTags(items))
  }

  /** The keys of `count_tags` are the elements of `tag_set`; each count is the
      number of occurrences of its tag among all items' tags, at least one. */
  lemma CountTagsSpec(items: seq<Item>)
    ensures CountTags(items).Keys == set t | t in TagSet(items)
    ensures forall t :: t in CountTags(items) ==>
      CountTags(items)[t] == multiset(AllTags(items))[t] >= 1
  {
    TallyCounts(AllTags(items));
  }

  /** The counts add up to the number of tags over all items; with no tags at
      all the map is empty. */
  lemma CountTagsSum(items: seq<Item>)
    ensures SumAt(CountTags(items), TagSet(items)) == TagTotal(items)
    ensures TagTotal(items) == 0 ==> CountTags(items) == map[]
  {
    TallySum(AllTags(items));
    AllTagsLength(items);
  }

  /** An element listed once in a sequence occurs there at most once. */
  lemma {:induction false} DistinctOccursOnce(s: seq<Tag>, t: Tag)
    requires Distinct(s)
    ensures multiset(s)[t] <= 1
  {
    if |s| > 0 {
      assert s == [s[0]] + s[1..];
      DistinctOccursOnce(s[1..], t);
      if s[0] == t {
        assert t !in s[1..];
      }
    }
  }

  /** When no item lists a tag twice, no count exceeds the number of items. */
  lemma {:induction false} CountAtMostItems(items: seq<Item>, t: Tag)
    requires forall i :: 0 <= i < |items| ==> Distinct(TagsOf(items[i]))
    ensures multiset(AllTags(items))[t] <= |items|
  {
    if |items| > 0 {
      CountAtMostItems(items[..|items| - 1], t);
      DistinctOccursOnce(TagsOf(items[|items| - 1]), t);
    }
  }

  /** The scan at the start of `rank_tags`: `max` starts at 0, `min` at the
      number of items, and each tag's count raises `max` or lowers `min`. */
  method RankTagsScan(items: seq<Item>) returns (max: nat, min: nat)
    ensures forall t :: t in CountTags(items) ==> min <= CountTags(items)[t] <= max
    ensures max == 0 || max in CountTags(items).Values
    ensures CountTags(items) != map[] ==> max in CountTags(items).Values
    ensures min <= |items|
    ensures min == |items| || min in CountTags(items).Values
    ensures (forall i :: 0 <= i < |items| ==> Distinct(TagsOf(items[i]))) && CountTags(items) != map[] ==>
      min in CountTags(items).Values
  {
    var count, keys := CountTags(items), TagSet(items);
    CountTagsSpec(items);
    max, min := 0, |items|;
    for i := 0 to |keys|
      invariant forall k :: 0 <= k < i ==> min <= count[keys[k]] <= max
      invariant max == 0 || max in count.Values
      invariant min <= |items|
      invariant min == |items| || min in count.Values
    {
      var c := count[keys[i]];
      if c > max {
        max := c;
      }
      if c < min {
        min := c;
      }
    }
    forall t | t in count
      ensures min <= count[t] <= max
    {
      var k := IndexOf(keys, t);
      assert keys[k] == t;
    }
    if count != map[] {
      var t :| t in count;
      assert count[t] in count.Values;
      if forall i :: 0 <= i < |items| ==> Distinct(TagsOf(items[i])) {
        CountAtMostItems(items, t);
        assert min == count[t] || min < |items|;
      }
    }
  }

  /** The page made for one tag by `create_tag_pages`: it renders the
      `section` partial for the tag, is titled with the tag, sits at
      `/<tag in lower case>/`, carries no tags and is not binary. */
  function TagPage(tag: Tag): Item {
    Item(RenderSection(tag), tag, "/" + Downcase(tag) + "/", None, false)
  }

  /** One page per tag, in the order of `tags`. */
  function TagPages(tags: seq<Tag>): seq<Item> {
    seq(|tags|, k requires 0 <= k < |tags| => TagPage(tags[k]))
  }

  /** The pages of `create_tag_pages` come one per tag of `tag_set`, in that
      order, titled with distinct tags; each is a textual item with no tags of
      its own at `/` + lower-cased title + `/`. */
  lemma TagPagesOnePerTag(items: seq<Item>)
    ensures |TagPages(TagSet(items))| == |TagSet(items)|
    ensures forall k :: 0 <= k < |TagSet(items)| ==> TagPages(TagSet(items))[k].title == TagSet(items)[k]
    ensures forall j, k :: 0 <= j < k < |TagSet(items)| ==>
      TagPages(TagSet(items))[j].title != TagPages(TagSet(items))[k].title
    ensures forall p :: p in TagPages(TagSet(items)) ==>
      !p.binary && p.tags == None && p.content == RenderSection(p.title) &&
      p.identifier == "/" + Downcase(p.title) + "/"
  {
  }

  /** Tag pages carry no tags, so appending them leaves `tag_set` and
      `count_tags` of the collection as they were, and no tag page is found by
      `items_with_tag`. */
  lemma TagPagesAddNoTags(items: seq<Item>, tags: seq<Tag>)
    ensures AllTags(items + TagPages(tags)) == AllTags(items)
    ensures TagSet(items + TagPages(tags)) == TagSet(items)
    ensures CountTags(items + TagPages(tags)) == CountTags(items)
    ensures forall t :: ItemsWithTag(t, items + TagPages(tags)) == ItemsWithTag(t, items)
  {
    var pages := TagPages(tags);
    AllTagsAppend(items, pages);
    PagesHaveNoTags(tags);
    forall t ensures ItemsWithTag(t, items + pages) == ItemsWithTag(t, items) {
      ItemsWithTagSkipsUntagged(t, items, pages);
    }
  }

  /** The flattened tags of tag pages are empty. */
  lemma {:induction false} PagesHaveNoTags(tags: seq<Tag>)
    ensures AllTags(TagPages(tags)) == []
  {
    if |tags| > 0 {
      var p := tags[..|tags| - 1];
      assert TagPages(tags)[..|tags| - 1] == TagPages(p);
      PagesHaveNoTags(p);
    }
  }

  /** Items without tags appended at the end are never selected by tag. */
  lemma {:induction false} ItemsWithTagSkipsUntagged(t: Tag, items: seq<Item>, extra: seq<Item>)
    requires forall k :: 0 <= k < |extra| ==> extra[k].tags == None
    ensures ItemsWithTag(t, items + extra) == ItemsWithTag(t, items)
    decreases |items| + |extra|
  {
    if |items| == 0 {
      if |extra| > 0 {
        assert ([] + extra)[1..] == [] + extra[1..];
        ItemsWithTagSkipsUntagged(t, [], extra[1..]);
      }
    } else {
      assert (items + extra)[1..] == items[1..] + extra;
      ItemsWithTagSkipsUntagged(t, items[1..], extra);
    }
  }

  /** The site's item collection, which `create_tag_pages` extends in place. */
  class Site {
    var items: seq<Item>

    constructor (items: seq<Item>)
      ensures this.items == items
    {
      this.items := items;
    }

    /** `create_tag_pages`: computes `tag_set` of the collection once, then
        appends one tag page per tag, in that order; the existing items stay
        as they were, in front. */
    method CreateTagPages()
      modifies this
      ensures items == old(items) + TagPages(TagSet(old(items)))
      ensures items[..|old(items)|] == old(items)
      ensures |items| == |old(items)| + |TagSet(old(items))|
    {
      var tags := TagSet(items);
      ghost var before := items;
      for i := 0 to |tags|
        invariant items == before + TagPages(tags[..i])
      {
        assert TagPages(tags[..i + 1]) == TagPages(tags[..i]) + [TagPage(tags[i])];
        items := items + [TagPage(tags[i])];
      }
      assert tags[..|tags|] == tags;
    }
  }

  /** Four items tagged `[a, b]`, `[a]`, nothing and `[b, c]`. */
  function Sample(): seq<Item> {
    [ Item(Given, "one", "/one/", Some(["a", "b"]), false),
      Item(Given, "two", "/two/", Some(["a"]), false),
      Item(Given, "three", "/three/", None, false),
      Item(Given, "four", "/four/", Some(["b", "c"]), false) ]
  }

  /** The sample's flattened tags. */
  lemma SampleTags()
    ensures AllTags(Sample()) == ["a", "b", "a", "b", "c"]
  {
    var s := Sample();
    assert s[..1] == [s[0]] && s[..2] == s[..1] + [s[1]] && s[..3] == s[..2] + [s[2]];
    assert AllTags(s[..1]) == ["a", "b"];
    assert AllTags(s[..2]) == ["a", "b", "a"];
    assert AllTags(s[..3]) == ["a", "b", "a"];
  }

  /** On the sample, `tag_set` is `[a, b, c]`. */
  lemma SampleTagSet()
    ensures TagSet(Sample()) == ["a", "b", "c"]
  {
    SampleTags();
    var t1, t2, t3, t4 := ["a"], ["a", "b"], ["a", "b", "a"], ["a", "b", "a", "b"];
    assert t1 == [] + ["a"] && t2 == t1 + ["b"] && t3 == t2 + ["a"] && t4 == t3 + ["b"];
    assert Uniq(t1) == ["a"] by { UniqSnoc([], "a"); }
    assert Uniq(t2) == ["a", "b"] by { UniqSnoc(t1, "b"); }
    assert Uniq(t3) == ["a", "b"] by { UniqSnoc(t2, "a"); }
    assert Uniq(t4) == ["a", "b"] by { UniqSnoc(t3, "b"); }
    assert Uniq(t4 + ["c"]) == ["a", "b", "c"] by { UniqSnoc(t4, "c"); }
    assert AllTags(Sample()) == t4 + ["c"];
  }

  /** On the sample, `count_tags` is `{a: 2, b: 2, c: 1}`. */
  lemma SampleCounts()
    ensures CountTags(Sample()) == map["a" := 2, "b" := 2, "c" := 1]
  {
    SampleTags();
    var t1, t2, t3, t4 := ["a"], ["a", "b"], ["a", "b", "a"], ["a", "b", "a", "b"];
    assert t1 == [] + ["a"] && t2 == t1 + ["b"] && t3 == t2 + ["a"] && t4 == t3 + ["b"];
    assert Tally(t1) == map["a" := 1] by { TallySnoc([], "a"); }
    assert Tally(t2) == map["a" := 1, "b" := 1] by { TallySnoc(t1, "b"); }
    assert Tally(t3) == map["a" := 2, "b" := 1] by { TallySnoc(t2, "a"); }
    assert Tally(t4) == map["a" := 2, "b" := 2] by { TallySnoc(t3, "b"); }
    assert Tally(t4 + ["c"]) == map["a" := 2, "b" := 2, "c" := 1] by { TallySnoc(t4, "c"); }
    assert AllTags(Sample()) == t4 + ["c"];
  }

  /** On the sample: only the third item lacks tag `a`, and
      `items_with_tag("b")` is the first and the fourth item. */
  lemma SampleItemsWithTag()
    ensures HasTag(Sample()[1], "a") && !HasTag(Sample()[2], "a")
    ensures ItemsWithTag("b", Sample()) == [Sample()[0], Sample()[3]]
  {
  }

  /** On the sample, the scan of `rank_tags` ends with `max` 2 and `min` 1:
      the least count, since no item lists a tag twice. */
  method SampleScan() returns (max: nat, min: nat)
    ensures max == 2 && min == 1
  {
    SampleCounts();
    var s := Sample();
    assert Distinct(TagsOf(s[0])) && Distinct(TagsOf(s[3]));
    max, min := RankTagsScan(s);
    assert CountTags(s)["c"] == 1 && CountTags(s)["a"] == 2;
  }
}
