# TaggingExtra: a verified model of nanoc-toolbox's tagging helper

nanoc-toolbox's `TaggingExtra` helper gives a nanoc site a small tag index over
its content items. Each item may carry a `:tags` list of strings, or none. The
helper computes the distinct tags of a collection (`tag_set`), tests an item for
a tag (`has_tag?`), selects the items with a tag (`items_with_tag`), counts how
often each tag occurs (`count_tags`), scans the counts for their largest and
smallest value before bucketing tags by frequency (`rank_tags`), and appends one
generated listing page per tag to the site's items (`create_tag_pages`).

Files:

- `wrappers.dfy` (module `Wrappers`): `Option`, standing for an attribute that
  may be `nil`.
- `ruby_core.dfy` (module `RubyCore`): the Ruby core operations the helper is
  built from. `Uniq` is `Array#uniq`. `Tally` is the
  `inject(Hash.new(0)) { |h, i| h[i] += 1; h }` fold. `SumAt` adds up hash
  values. `Downcase` is `String#downcase` on ASCII.
- `tagging_extra.dfy` (module `TaggingExtra`): the item record and the helper's
  operations. `tag_set`, `has_tag?`, `items_with_tag` and `count_tags` are pure
  pipelines, so they are functions with lemmas. The scan in `rank_tags` updates
  two variables in a loop, so it is a method with loop invariants.
  `create_tag_pages` appends to the site's item collection in place, so it is a
  method of class `Site`, which holds that collection.

The collection that the Ruby code takes from the host framework (`@items`, or
`sorted_articles` for `items_with_tag`) is an explicit `seq<Item>` parameter
here. The `Site` object holds it for `create_tag_pages`.

Ruby hashes enumerate keys in insertion order. So `count.keys` in `rank_tags`
lists the tags in first-occurrence order, which is the order of `tag_set`.
`RankTagsScan` therefore walks `TagSet(items)`. `CountTagsSpec` proves that
this lists every key of the count map exactly once.

`tag_set` returns an Array (`@return [Array<String>]`, tagging_extra.rb:16), so
its order is observable. It is first-occurrence order, which `TagSetSpec`
proves.

## Model

| member | source | states |
|---|---|---|
| `RubyCore.Uniq` | lib/nanoc/toolbox/helpers/tagging_extra.rb:19 | `uniq` has exactly the elements of its input, each once |
| `RubyCore.UniqFirstOccurrenceOrder` | lib/nanoc/toolbox/helpers/tagging_extra.rb:19 | `uniq` lists elements in the order of their first occurrence in the input |
| `RubyCore.UniqIsSubsequence` | lib/nanoc/toolbox/helpers/tagging_extra.rb:19 | `uniq` only deletes elements and never reorders them |
| `RubyCore.UniqSnoc` | lib/nanoc/toolbox/helpers/tagging_extra.rb:19 | appending an element to the input of `uniq` appends it to the output exactly when it is new |
| `RubyCore.TallyCounts` | lib/nanoc/toolbox/helpers/tagging_extra.rb:53 | the `inject` tally's keys are the input's elements, and each value is that element's number of occurrences, at least 1 |
| `RubyCore.TallySnoc` | lib/nanoc/toolbox/helpers/tagging_extra.rb:53 | one more element raises its own count by one (from the default 0) and leaves every other count alone |
| `RubyCore.TallySum` | lib/nanoc/toolbox/helpers/tagging_extra.rb:53 | summed over the distinct elements, the tally's values give the input's length |
| `RubyCore.Downcase` | lib/nanoc/toolbox/helpers/tagging_extra.rb:90 | downcasing keeps the length and maps each character through ASCII `downcase` |
| `RubyCore.DowncaseIdempotent` | lib/nanoc/toolbox/helpers/tagging_extra.rb:90 | a downcased string has no upper-case ASCII letter, and downcasing it again changes nothing |
| `TaggingExtra.HasTag` | lib/nanoc/toolbox/helpers/tagging_extra.rb:27-30 | false when the item's tag list is `nil`; otherwise true iff the tag is in the list, with an absent list read as empty |
| `TaggingExtra.HasTagIffInOwnTagSet` | lib/nanoc/toolbox/helpers/tagging_extra.rb:17-30 | an item has a tag iff the tag is in the `tag_set` of that item alone |
| `TaggingExtra.AllTagsMembership` | lib/nanoc/toolbox/helpers/tagging_extra.rb:19 | a tag is in the flattened non-`nil` tags iff some item has it (`has_tag?`) |
| `TaggingExtra.AllTagsAppend` | lib/nanoc/toolbox/helpers/tagging_extra.rb:19 | flattening the tags of two concatenated collections concatenates their flattened tags, and their totals add up |
| `TaggingExtra.AllTagsLength` | lib/nanoc/toolbox/helpers/tagging_extra.rb:52 | the flattened tag list is as long as the sum of the items' tag-list lengths |
| `TaggingExtra.TagSetSpec` | lib/nanoc/toolbox/helpers/tagging_extra.rb:17-20 | `tag_set` has no duplicates and contains a tag iff some item has it; its tags keep first-occurrence order and it is a subsequence of the flattened tags |
| `TaggingExtra.ItemsWithTag` | lib/nanoc/toolbox/helpers/tagging_extra.rb:39-42 | every returned item has the tag, and every input item with the tag is returned |
| `TaggingExtra.ItemsWithTagIsFilter` | lib/nanoc/toolbox/helpers/tagging_extra.rb:41 | the result is an order-preserving subsequence of the input; an item with the tag appears as often as in the input, and any other item not at all |
| `TaggingExtra.CountTagsSpec` | lib/nanoc/toolbox/helpers/tagging_extra.rb:50-54 | the keys of `count_tags` are exactly the elements of `tag_set`; each value is that tag's number of occurrences across all items, at least 1 |
| `TaggingExtra.CountTagsSum` | lib/nanoc/toolbox/helpers/tagging_extra.rb:50-54 | the counts sum to the number of non-`nil` tags over all items; with no tags the map is empty |
| `TaggingExtra.CountAtMostItems` | lib/nanoc/toolbox/helpers/tagging_extra.rb:67 | when no item lists a tag twice, no count exceeds the number of items, the initial value of `min` |
| `TaggingExtra.RankTagsScan` | lib/nanoc/toolbox/helpers/tagging_extra.rb:63-71 | `max` is at least every count and is 0 or some count, so with any tag present it is the largest count. `min` is at most every count and at most `items.size`, and is `items.size` or some count. When no item lists a tag twice and a tag exists, `min` is the smallest count |
| `TaggingExtra.TagPagesOnePerTag` | lib/nanoc/toolbox/helpers/tagging_extra.rb:86-92 | one page per `tag_set` element, in that order, with distinct titles equal to the tags. Each page renders `section` for its tag, has no tags, is not binary, and has identifier `/` + lowercase(title) + `/` |
| `TaggingExtra.TagPagesAddNoTags` | lib/nanoc/toolbox/helpers/tagging_extra.rb:86-93 | appending tag pages leaves the flattened tags, `tag_set`, `count_tags` and every `items_with_tag` result unchanged |
| `TaggingExtra.PagesHaveNoTags` | lib/nanoc/toolbox/helpers/tagging_extra.rb:87-92 | generated pages contribute no tags |
| `TaggingExtra.ItemsWithTagSkipsUntagged` | lib/nanoc/toolbox/helpers/tagging_extra.rb:27-41 | items without a tag list, appended at the end, are never selected by tag |
| `TaggingExtra.Site.constructor` | lib/nanoc/toolbox/helpers/tagging_extra.rb:85 | the site starts with the given item collection |
| `TaggingExtra.Site.CreateTagPages` | lib/nanoc/toolbox/helpers/tagging_extra.rb:85-94 | the new collection is the old one, unchanged in front, followed by exactly one tag page per element of the old `tag_set`, in that order |
| `TaggingExtra.SampleTags` | lib/nanoc/toolbox/helpers/tagging_extra.rb:19 | for items tagged `[a, b]`, `[a]`, `nil`, `[b, c]`, the flattened tags are `[a, b, a, b, c]` |
| `TaggingExtra.SampleTagSet` | lib/nanoc/toolbox/helpers/tagging_extra.rb:17-20 | on that sample, `tag_set` is `[a, b, c]` |
| `TaggingExtra.SampleCounts` | lib/nanoc/toolbox/helpers/tagging_extra.rb:50-54 | on that sample, `count_tags` is `{a: 2, b: 2, c: 1}` |
| `TaggingExtra.SampleItemsWithTag` | lib/nanoc/toolbox/helpers/tagging_extra.rb:27-42 | on that sample, the second item has `a` and the third does not; `items_with_tag("b")` is the first and fourth items |
| `TaggingExtra.SampleScan` | lib/nanoc/toolbox/helpers/tagging_extra.rb:63-71 | on that sample the scan ends with `max` 2 and `min` 1, because `min` drops from `items.size` 4 to the least count |

## Left out

- The rest of `rank_tags` (lib/nanoc/toolbox/helpers/tagging_extra.rb:72-81) is not modelled. This covers the floating-point divisor `(max.to_f - min) / n`, the per-tag rank `n - 1 - (count - min) / divisor`, the clamp at 0 and the `to_i` truncation. That is IEEE floating-point arithmetic, which exact arithmetic would not reproduce faithfully. Its failure cases are not modelled either. When `max == min` the divisor is 0.0, each rank is NaN, and `to_i` raises `FloatDomainError`. By the scan's contract this happens when tags exist, all counts are equal, and that common count is at most `items.size`, for instance when no item lists a tag twice. An item tagged `["a", "a"]` alone gives `max` 2 and `min` 1, so it does not raise. With `n == 0` the divisor is infinite or NaN.
- The default collections are framework state and are not modelled. These are `@items` for `tag_set`, `count_tags` and `rank_tags`, and `sorted_articles` from `Nanoc::Helpers::Blogging` for `items_with_tag`. Each operation takes the collection explicitly.
- `Nanoc3::Item.new` is reduced to a record of content, title, identifier, tags and binary flag. The rendered content is recorded as `RenderSection(tag)` and the `section` partial is never rendered. A generated page has no `:tags` attribute, so its `tags` is `None`.
- `Downcase`: only ASCII letters are lowered. Ruby's Unicode-aware `String#downcase` is not modelled, because the model has no Unicode case tables.
- `flatten` on nested arrays, on non-array `:tags` values, and on `nil` entries inside a tag list is not modelled. A tag list is an optional sequence of strings. This is why `AllTags` can skip absent lists where Ruby first flattens `nil` into the array and later deletes it.
- Item identity is not modelled. Items are values, so two equal items are the same item. This matters for `items_with_tag`, whose multiset statement counts equal items together.
- `has_tag?` duck-typing (any object with `[]`) is not modelled. An item is the `Item` record.
