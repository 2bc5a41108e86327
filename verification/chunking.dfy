/**
 * Building the chunk list of the knowledge base from the scraped page
 * (`KnowledgeBase.create_from_scraped_data`, chatbot.py:48-67): the
 * list-valued sections of the scraped dictionary are flattened in order and
 * the items are packed greedily into chunks of at most about 500 characters.
 *
 * The packer works on the running chunk text exactly as the loop of
 * `create_from_scraped_data` in chatbot.py does. To state what it computes,
 * it also records which items went into each chunk (`Packing.groups`);
 * `create_from_scraped_data` keeps no such list.
 */
module Chunking {
  import opened Options
  import opened Text

  /** A value of the scraped dictionary: a list of text items, or the
      metadata entry holding the page title. */
  datatype SectionValue = TextList(items: seq<string>) | Metadata(title: string)

  datatype Section = Section(name: string, value: SectionValue)

  /** The scraped dictionary, its entries in insertion order. */
  type ScrapedContent = seq<Section>

  /** The threshold of the packing test `len(current_chunk) + len(item) < 500`. */
  const ChunkLimit: nat := 500

  /** The title stored when the page has no `<title>` element. */
  const NoTitle := "No Title"

  /** The dictionary `scrape_website_comprehensive` builds from the texts the
      HTML parser extracted: headers, paragraphs and list items, each
      whitespace-normalised, followed by the title metadata. */
  function Structure(headers: seq<string>, paragraphs: seq<string>, listItems: seq<string>,
                     title: Option<string>): ScrapedContent
  {
    [ Section("headers", TextList(NormaliseAll(headers))),
      Section("paragraphs", TextList(NormaliseAll(paragraphs))),
      Section("lists", TextList(NormaliseAll(listItems))),
      Section("metadata", Metadata(if title.Some? then title.value else NoTitle)) ]
  }

  function NormaliseAll(texts: seq<string>): seq<string> {
    seq(|texts|, i requires 0 <= i < |texts| => Normalise(texts[i]))
  }

  /** `all_text`: the items of every list-valued section, in dictionary order;
      entries that are not lists contribute nothing. */
  function Items(content: ScrapedContent): seq<string>
    decreases |content|
  {
    if content == [] then []
    else
      var last := content[|content| - 1];
      Items(content[..|content| - 1]) + (if last.value.TextList? then last.value.items else [])
  }

  /** Flattening distributes over the dictionary's entries. */
  lemma {:induction false} ItemsAppend(a: ScrapedContent, b: ScrapedContent)
    ensures Items(a + b) == Items(a) + Items(b)
    decreases |b|
  {
    if b == [] {
      assert a + b == a;
    } else {
      var init := b[..|b| - 1];
      assert (a + b)[..|a + b| - 1] == a + init;
      assert (a + b)[|a + b| - 1] == b[|b| - 1];
      ItemsAppend(a, init);
    }
  }

  /** The scraped page flattens to its normalised headers, then paragraphs,
      then list items; the title metadata is ignored. */
  lemma {:induction false} StructureItems(headers: seq<string>, paragraphs: seq<string>, listItems: seq<string>,
                       title: Option<string>)
    ensures var items := Items(Structure(headers, paragraphs, listItems, title));
      items == NormaliseAll(headers) + NormaliseAll(paragraphs) + NormaliseAll(listItems)
      && forall k :: 0 <= k < |items| ==> Normalise(items[k]) == items[k]
  {
    var c := Structure(headers, paragraphs, listItems, title);
    var h, p, l := NormaliseAll(headers), NormaliseAll(paragraphs), NormaliseAll(listItems);
    assert Items(c[..1]) == h by {
      assert c[..1][..0] == [];
    }
    assert Items(c[..2]) == h + p by {
      assert c[..2][..1] == c[..1];
    }
    assert Items(c[..3]) == h + p + l by {
      assert c[..3][..2] == c[..2];
    }
    assert c[..4] == c;
    var items := Items(c);
    assert items == h + p + l;
    forall k | 0 <= k < |items| ensures Normalise(items[k]) == items[k] {
      var n1, n2 := |h|, |h| + |p|;
      var t := if k < n1 then headers[k] else if k < n2 then paragraphs[k - n1] else listItems[k - n2];
      assert items[k] == Normalise(t);
      NormaliseIdempotent(t);
    }
  }

  // ---------------------------------------------------------------------------
  // Greedy packing
  // ---------------------------------------------------------------------------

  /** The emitted chunks, and for each the items it was built from. */
  datatype Packing = Packing(chunks: seq<string>, groups: seq<seq<string>>)

  function Flatten(groups: seq<seq<string>>): seq<string>
    decreases |groups|
  {
    if groups == [] then [] else Flatten(groups[..|groups| - 1]) + groups[|groups| - 1]
  }

  /** The running chunk text for a group of items. The first chunk starts
      from "" and every item is added as " " + item; every later chunk starts
      from its first item. */
  function Render(group: seq<string>, first: bool): string {
    if first && group != [] then " " + Join(" ", group) else Join(" ", group)
  }

  /** `self.chunks.append(current_chunk.strip())`, recording the group. */
  function Emit(p: Packing, current: string, group: seq<string>): Packing {
    Packing(p.chunks + [Strip(current)], p.groups + [group])
  }

  /** The loop of `create_from_scraped_data` from item `i` on, with the
      chunks emitted so far and the running chunk text `current`. */
  function PackFrom(items: seq<string>, i: nat, done: Packing, current: string, group: seq<string>): Packing
    requires i <= |items|
    decreases |items| - i
  {
    if i == |items| then
      if current != "" then Emit(done, current, group) else done
    else
      var item := items[i];
      if |current| + |item| < ChunkLimit then
        PackFrom(items, i + 1, done, current + " " + item, group + [item])
      else
        PackFrom(items, i + 1, Emit(done, current, group), item, [item])
  }

  /** `self.chunks` after `create_from_scraped_data`, with the items of each chunk. */
  function Pack(items: seq<string>): Packing {
    PackFrom(items, 0, Packing([], []), "", [])
  }

  // ---------------------------------------------------------------------------
  // What the packer computes
  // ---------------------------------------------------------------------------

  /** Every item of a group after the opening one fitted the running text:
      its length plus the running length stayed below the limit. The first
      group has no opening item: each of its items was admitted by the test.
      Stated item by item from the right; `FitsAt` gives the indexed form. */
  ghost predicate Fits(group: seq<string>, first: bool)
    decreases |group|
  {
    || |group| <= (if first then 0 else 1)
    || (&& Fits(group[..|group| - 1], first)
        && |Render(group[..|group| - 1], first)| + |group[|group| - 1]| < ChunkLimit)
  }

  /** A chunk within the limit, unless it is a single item that alone reaches it. */
  ghost predicate Bounded(chunk: string, group: seq<string>) {
    |chunk| <= ChunkLimit || (|group| == 1 && |group[0]| >= ChunkLimit)
  }

  /** One group per chunk; each chunk is the stripped blank-join of its
      group and respects the bound. */
  ghost predicate Aligned(p: Packing) {
    && |p.chunks| == |p.groups|
    && forall c :: 0 <= c < |p.chunks| ==>
         p.chunks[c] == Strip(Join(" ", p.groups[c])) && Bounded(p.chunks[c], p.groups[c])
  }

  ghost predicate Greedy(groups: seq<seq<string>>) {
    forall c :: 0 <= c < |groups| ==> Fits(groups[c], c == 0)
  }

  /** Each group after the first is opened by an item that did not fit the
      running text of the group before it. Stated group by group from the
      right; `OpenedAt` gives the indexed form. */
  ghost predicate Opened(groups: seq<seq<string>>)
    decreases |groups|
  {
    || |groups| <= 1
    || (var n := |groups|;
        && Opened(groups[..n - 1])
        && groups[n - 1] != []
        && |Render(groups[n - 2], n == 2)| + |groups[n - 1][0]| >= ChunkLimit)
  }

  /** The emitted part of a packing. */
  ghost predicate Emitted(p: Packing) {
    Aligned(p) && Greedy(p.groups) && Opened(p.groups)
  }

  /** The state of the packing loop after `i` items. */
  ghost predicate Running(items: seq<string>, i: nat, done: Packing, current: string, group: seq<string>) {
    var first := done.groups == [];
    && i <= |items|
    && Emitted(done)
    && Flatten(done.groups) + group == items[..i]
    && current == Render(group, first)
    && Fits(group, first)
    && (!first ==> group != [])
    && (!first ==> |Render(done.groups[|done.groups| - 1], |done.groups| == 1)| + |group[0]| >= ChunkLimit)
    && (|current| <= ChunkLimit || (|group| == 1 && !first))
    && (!first && done.groups[|done.groups| - 1] == [""] ==> current != "")
  }

  /** The whole result: `Emitted`; an empty first group is never the last
      one; and the groups give back the items in order. The only item that
      can go missing is a trailing "" that arrived when the running chunk had
      reached the limit: it restarts the running text as "", which the final
      `if current_chunk` does not emit, so a later chunk never ends the
      result as the group [""]. */
  ghost predicate Packed(items: seq<string>, p: Packing) {
    && Emitted(p)
    && (p.groups != [] && p.groups[0] == [] ==> |p.groups| > 1)
    && (|p.groups| > 1 ==> p.groups[|p.groups| - 1] != [""])
    && (|| Flatten(p.groups) == items
        || (&& p.groups != []
            && items == Flatten(p.groups) + [""]
            && |Render(p.groups[|p.groups| - 1], |p.groups| == 1)| >= ChunkLimit))
  }

  /** `Fits` item by item: every item after the opening one was admitted by
      the packing test against the running text before it. */
  lemma {:induction false} FitsAt(group: seq<string>, first: bool, m: nat)
    requires Fits(group, first)
    requires (if first then 0 else 1) <= m < |group|
    ensures |Render(group[..m], first)| + |group[m]| < ChunkLimit
    decreases |group|
  {
    var n := |group|;
    if m < n - 1 {
      var init := group[..n - 1];
      FitsAt(init, first, m);
      assert init[..m] == group[..m] && init[m] == group[m];
    }
  }

  /** `Opened` group by group: each later group is non-empty and its first
      item, added to the running text of the group before, reached the limit. */
  lemma {:induction false} OpenedAt(groups: seq<seq<string>>, c: nat)
    requires Opened(groups)
    requires 0 < c < |groups|
    ensures groups[c] != [] && |Render(groups[c - 1], c == 1)| + |groups[c][0]| >= ChunkLimit
    decreases |groups|
  {
    var n := |groups|;
    if c < n - 1 {
      var init := groups[..n - 1];
      OpenedAt(init, c);
      assert init[c - 1] == groups[c - 1] && init[c] == groups[c];
    }
  }

  lemma {:induction false} JoinAppend(group: seq<string>, item: string)
    requires group != []
    ensures Join(" ", group + [item]) == Join(" ", group) + " " + item
  {
    assert (group + [item])[..|group|] == group;
  }

  lemma {:induction false} FlattenAppend(groups: seq<seq<string>>, g: seq<string>)
    ensures Flatten(groups + [g]) == Flatten(groups) + g
  {
    assert (groups + [g])[..|groups|] == groups;
  }

  /** Rendering differs from the plain join only by a leading blank. */
  lemma {:induction false} StripRender(group: seq<string>, first: bool)
    ensures Strip(Render(group, first)) == Strip(Join(" ", group))
  {
    if first && group != [] { StripLeadingSpace(Join(" ", group)); }
  }

  lemma {:induction false} EmitAligned(p: Packing, current: string, group: seq<string>, first: bool)
    requires Aligned(p)
    requires current == Render(group, first)
    requires |current| <= ChunkLimit || (|group| == 1 && !first)
    ensures Aligned(Emit(p, current, group))
  {
    var d := Emit(p, current, group);
    var n := |p.chunks|;
    StripRender(group, first);
    if |current| > ChunkLimit {
      assert Join(" ", group) == group[0];
    }
    assert Bounded(d.chunks[n], d.groups[n]);
    forall c | 0 <= c < n
      ensures d.chunks[c] == Strip(Join(" ", d.groups[c])) && Bounded(d.chunks[c], d.groups[c])
    {
      assert d.chunks[c] == p.chunks[c] && d.groups[c] == p.groups[c];
    }
  }

  lemma {:induction false} EmitGreedy(groups: seq<seq<string>>, group: seq<string>)
    requires Greedy(groups)
    requires Fits(group, groups == [])
    ensures Greedy(groups + [group])
  {
    var gs := groups + [group];
    forall c | 0 <= c < |gs| ensures Fits(gs[c], c == 0) {
      if c < |groups| { assert gs[c] == groups[c]; }
    }
  }

  lemma {:induction false} EmitOpened(groups: seq<seq<string>>, group: seq<string>)
    requires Opened(groups)
    requires groups != [] ==> group != []
    requires groups != [] ==> |Render(groups[|groups| - 1], |groups| == 1)| + |group[0]| >= ChunkLimit
    ensures Opened(groups + [group])
  {
    var gs := groups + [group];
    assert gs[..|gs| - 1] == groups;
  }

  /** Emitting the running chunk keeps the emitted part well formed. */
  lemma {:induction false} EmitKeepsEmitted(done: Packing, current: string, group: seq<string>)
    requires Emitted(done)
    requires current == Render(group, done.groups == [])
    requires Fits(group, done.groups == [])
    requires done.groups != [] ==> group != []
    requires done.groups != [] ==>
      |Render(done.groups[|done.groups| - 1], |done.groups| == 1)| + |group[0]| >= ChunkLimit
    requires |current| <= ChunkLimit || (|group| == 1 && done.groups != [])
    ensures Emitted(Emit(done, current, group))
  {
    var d := Emit(done, current, group);
    assert d.groups == done.groups + [group];
    EmitAligned(done, current, group, done.groups == []);
    EmitGreedy(done.groups, group);
    EmitOpened(done.groups, group);
  }

  lemma {:induction false} RenderAppend(group: seq<string>, item: string, first: bool)
    requires first || group != []
    ensures Render(group + [item], first) == Render(group, first) + " " + item
  {
    if group == [] {
      assert Join(" ", group + [item]) == item;
    } else {
      JoinAppend(group, item);
    }
  }

  lemma {:induction false} FitsAppend(group: seq<string>, item: string, first: bool)
    requires Fits(group, first)
    requires |Render(group, first)| + |item| < ChunkLimit
    ensures Fits(group + [item], first)
  {
    var g := group + [item];
    assert g[..|g| - 1] == group;
  }

  lemma {:induction false} TakeOneMore(items: seq<string>, i: nat, before: seq<string>, group: seq<string>)
    requires i < |items|
    requires before + group == items[..i]
    ensures before + (group + [items[i]]) == items[..i + 1]
  {
    assert items[..i + 1] == items[..i] + [items[i]];
  }

  /** The `if` branch keeps `Running`: the item joins the running chunk. */
  lemma {:induction false} AppendKeepsRunning(items: seq<string>, i: nat, done: Packing, current: string, group: seq<string>)
    requires i < |items|
    requires Running(items, i, done, current, group)
    requires |current| + |items[i]| < ChunkLimit
    ensures Running(items, i + 1, done, current + " " + items[i], group + [items[i]])
  {
    var item := items[i];
    var first := done.groups == [];
    var g := group + [item];
    TakeOneMore(items, i, Flatten(done.groups), group);
    RenderAppend(group, item, first);
    FitsAppend(group, item, first);
    if !first {
      assert g[0] == group[0];
    }
  }

  /** The `else` branch keeps `Running`: the running chunk is emitted and the
      item opens the next one. */
  lemma {:induction false} EmitKeepsRunning(items: seq<string>, i: nat, done: Packing, current: string, group: seq<string>)
    requires i < |items|
    requires Running(items, i, done, current, group)
    requires |current| + |items[i]| >= ChunkLimit
    ensures Running(items, i + 1, Emit(done, current, group), items[i], [items[i]])
  {
    var item := items[i];
    var d := Emit(done, current, group);
    EmitKeepsEmitted(done, current, group);
    FlattenAppend(done.groups, group);
    TakeOneMore(items, i, Flatten(done.groups) + group, []);
    assert Flatten(d.groups) + [item] == items[..i + 1];
    assert Render([item], false) == item;
    assert d.groups[|d.groups| - 1] == group;
    assert Render([""], false) == "" && Render([""], true) == " ";
    assert Fits([item], false);
  }

  /** The end of the loop: `if current_chunk:` emits the running chunk. */
  lemma {:induction false} FinishPacked(items: seq<string>, done: Packing, current: string, group: seq<string>)
    requires Running(items, |items|, done, current, group)
    ensures Packed(items, if current != "" then Emit(done, current, group) else done)
  {
    var first := done.groups == [];
    assert items[..|items|] == items;
    if current != "" {
      EmitKeepsEmitted(done, current, group);
      FlattenAppend(done.groups, group);
      assert Render([""], false) == "";
    } else if !first {
      assert group == [""];
      assert Render([], true) == "";
    }
  }

  /** The state of the packing loop: emitted chunks, running text, running group. */
  datatype LoopState = LoopState(done: Packing, current: string, group: seq<string>)

  /** One iteration of the loop body on item `i`. */
  function Step(items: seq<string>, i: nat, done: Packing, current: string, group: seq<string>): LoopState
    requires i < |items|
  {
    var item := items[i];
    if |current| + |item| < ChunkLimit then LoopState(done, current + " " + item, group + [item])
    else LoopState(Emit(done, current, group), item, [item])
  }

  /** Either branch of the loop body keeps `Running`. */
  lemma {:induction false} StepKeepsRunning(items: seq<string>, i: nat, done: Packing, current: string, group: seq<string>)
    requires i < |items|
    requires Running(items, i, done, current, group)
    ensures var s := Step(items, i, done, current, group);
      && Running(items, i + 1, s.done, s.current, s.group)
      && PackFrom(items, i, done, current, group) == PackFrom(items, i + 1, s.done, s.current, s.group)
  {
    if |current| + |items[i]| < ChunkLimit {
      AppendKeepsRunning(items, i, done, current, group);
    } else {
      EmitKeepsRunning(items, i, done, current, group);
    }
  }

  /** The rest of the loop turns a `Running` state into a `Packed` result. */
  lemma {:induction false} PackFromPacked(items: seq<string>, i: nat, done: Packing, current: string, group: seq<string>)
    requires i <= |items|
    requires Running(items, i, done, current, group)
    ensures Packed(items, PackFrom(items, i, done, current, group))
    decreases |items| - i
  {
    if i == |items| {
      FinishPacked(items, done, current, group);
    } else {
      var s := Step(items, i, done, current, group);
      StepKeepsRunning(items, i, done, current, group);
      PackFromPacked(items, i + 1, s.done, s.current, s.group);
    }
  }

  /** The chunk partition: the packer splits the items into consecutive
      groups, one per chunk, each chunk the stripped blank-join of its group,
      the groups packed greedily, and every chunk within 500 characters unless
      it is a single item that alone reaches the limit. */
  lemma {:induction false} PackPartition(items: seq<string>)
    ensures Packed(items, Pack(items))
  {
    assert items[..0] == [];
    assert Render([], true) == "";
    PackFromPacked(items, 0, Packing([], []), "", []);
  }

  /** No items give no chunks, and any item gives at least one chunk. */
  lemma {:induction false} PackEmpty(items: seq<string>)
    ensures Pack(items).chunks == [] <==> items == []
  {
    PackPartition(items);
  }

  /** Later steps only add chunks: what has been emitted stays a prefix. */
  lemma {:induction false} PackKeepsEmitted(items: seq<string>, i: nat, done: Packing, current: string, group: seq<string>)
    requires i <= |items|
    requires |done.chunks| == |done.groups|
    ensures var p := PackFrom(items, i, done, current, group);
      && |p.chunks| == |p.groups| && |p.groups| >= |done.groups|
      && p.groups[..|done.groups|] == done.groups
      && p.chunks[..|done.chunks|] == done.chunks
    decreases |items| - i
  {
    if i < |items| {
      var item := items[i];
      if |current| + |item| < ChunkLimit {
        PackKeepsEmitted(items, i + 1, done, current + " " + item, group + [item]);
      } else {
        var d := Emit(done, current, group);
        PackKeepsEmitted(items, i + 1, d, item, [item]);
        var p := PackFrom(items, i + 1, d, item, [item]);
        assert p.groups[..|done.groups|] == p.groups[..|d.groups|][..|done.groups|];
        assert p.chunks[..|done.chunks|] == p.chunks[..|d.chunks|][..|done.chunks|];
      }
    } else if current != "" {
      var p := PackFrom(items, i, done, current, group);
      assert p.groups[..|done.groups|] == done.groups;
      assert p.chunks[..|done.chunks|] == done.chunks;
    }
  }

  /** While nothing has been emitted, the running group opens the first chunk. */
  lemma {:induction false} FirstGroupOpens(items: seq<string>, i: nat, current: string, group: seq<string>)
    requires i <= |items|
    requires current != "" && group != []
    ensures var p := PackFrom(items, i, Packing([], []), current, group);
      p.groups != [] && p.groups[0] != [] && p.groups[0][0] == group[0]
    decreases |items| - i
  {
    if i < |items| {
      var item := items[i];
      if |current| + |item| < ChunkLimit {
        FirstGroupOpens(items, i + 1, current + " " + item, group + [item]);
      } else {
        var d := Emit(Packing([], []), current, group);
        PackKeepsEmitted(items, i + 1, d, item, [item]);
        var p := PackFrom(items, i + 1, d, item, [item]);
        assert p.groups[0] == p.groups[..1][0] == group;
      }
    }
  }

  /** An opening item of 500 characters or more takes the `else` branch
      at once: "" is emitted from an empty group and the item starts over. */
  lemma {:induction false} OversizedStart(items: seq<string>)
    requires items != [] && |items[0]| >= ChunkLimit
    ensures Pack(items) == PackFrom(items, 1, Packing([""], [[]]), items[0], [items[0]])
  {
    var x := items[0];
    assert "" + x == x && Strip("") == "";
    var d := Emit(Packing([], []), "", []);
    assert d == Packing([""], [[]]);
    calc {
      Pack(items);
      PackFrom(items, 0, Packing([], []), "", []);
      PackFrom(items, 1, d, x, [x]);
    }
  }

  /** A running chunk that has reached the limit is emitted as it stands,
      by the next item or by the end of the loop, after everything emitted
      before it. */
  lemma {:induction false} LongRunningEmitted(items: seq<string>, i: nat, done: Packing, current: string, group: seq<string>)
    requires i <= |items|
    requires |done.chunks| == |done.groups|
    requires |current| >= ChunkLimit
    ensures var p := PackFrom(items, i, done, current, group);
      var n := |done.groups|;
      && |p.chunks| == |p.groups| > n
      && p.groups[..n] == done.groups && p.chunks[..n] == done.chunks
      && p.groups[n] == group && p.chunks[n] == Strip(current)
  {
    var d := Emit(done, current, group);
    var p := PackFrom(items, i, done, current, group);
    if i < |items| {
      PackKeepsEmitted(items, i + 1, d, items[i], [items[i]]);
    }
    PrefixSnoc(p.groups, done.groups, group);
    PrefixSnoc(p.chunks, done.chunks, Strip(current));
  }

  lemma {:induction false} PrefixSnoc<T>(s: seq<T>, pre: seq<T>, x: T)
    requires |s| > |pre| && s[..|pre| + 1] == pre + [x]
    ensures s[..|pre|] == pre && s[|pre|] == x
  {
    assert s[..|pre|] == s[..|pre| + 1][..|pre|];
    assert s[|pre|] == s[..|pre| + 1][|pre|];
  }

  /** The quirk of the `else` branch: an opening item of 500 characters or
      more makes the first chunk "" (the stripped empty running text, from
      an empty group), and the second chunk holds that item alone. */
  lemma {:induction false} PackOversizedFirstItem(items: seq<string>)
    requires items != [] && |items[0]| >= ChunkLimit
    ensures var p := Pack(items);
      && |p.chunks| >= 2 && |p.groups| >= 2
      && p.chunks[0] == "" && p.groups[0] == []
      && p.chunks[1] == Strip(items[0]) && p.groups[1] == [items[0]]
  {
    OversizedStart(items);
    LongRunningEmitted(items, 1, Packing([""], [[]]), items[0], [items[0]]);
    var p := Pack(items);
    assert p.chunks[0] == p.chunks[..1][0];
    assert p.groups[0] == p.groups[..1][0];
  }

  /** The other quirk: a "" that arrives after a running chunk of 500
      characters or more restarts the running text as "", which is never
      emitted, so the "" is lost. */
  lemma {:induction false} PackDropsTrailingEmpty(s: string)
    requires |s| >= ChunkLimit
    ensures Pack([s, ""]) == Packing(["", Strip(s)], [[], [s]])
  {
    var items := [s, ""];
    OversizedStart(items);
    var d := Emit(Packing([""], [[]]), s, [s]);
    assert d == Packing(["", Strip(s)], [[], [s]]);
    assert PackFrom(items, 1, Packing([""], [[]]), s, [s]) == PackFrom(items, 2, d, "", [""]);
  }

  /** The first group is empty exactly when the opening item has 500
      characters or more. */
  lemma {:induction false} PackFirstGroupEmpty(items: seq<string>)
    ensures var p := Pack(items);
      (p.groups != [] && p.groups[0] == []) <==> (items != [] && |items[0]| >= ChunkLimit)
  {
    if items == [] {
      assert Pack(items) == Packing([], []);
    } else if |items[0]| >= ChunkLimit {
      PackOversizedFirstItem(items);
      assert Pack(items).groups[0] == [];
    } else {
      var x := items[0];
      assert "" + " " + x == " " + x;
      assert [] + [x] == [x];
      assert Pack(items) == PackFrom(items, 1, Packing([], []), " " + x, [x]);
      FirstGroupOpens(items, 1, " " + x, [x]);
    }
  }
}
