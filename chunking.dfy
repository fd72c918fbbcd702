/** `chunk_text`: a greedy packer of `"\n\n"`-separated paragraphs into chunks
    of bounded size. */
module Chunking {
  import opened Text

  const Sep: string := "\n\n"

  /** The Python `current_chunk` holding the paragraphs `g`: each is followed by `"\n\n"`. */
  function Block(g: seq<string>): (b: string)
    ensures g == [] <==> b == ""
  {
    if g == [] then "" else Join(g, Sep) + Sep
  }

  /** Adding a paragraph to the current chunk appends it and a separator. */
  lemma BlockPush(g: seq<string>, p: string)
    ensures Block(g + [p]) == Block(g) + p + Sep
  {
    if g == [] {
      assert g + [p] == [p];
    } else {
      JoinAppend(g, p, Sep);
    }
  }

  /** The groups of paragraphs the loop of lines 350-358 builds, `cur` being
      the group being filled: a paragraph joins it while the chunk text stays
      within `maxSize`, otherwise it starts the next group. */
  function Groups(paras: seq<string>, maxSize: nat, cur: seq<string>): seq<seq<string>>
    decreases |paras|
  {
    if paras == [] then (if cur == [] then [] else [cur])
    else if |Block(cur)| + |paras[0]| <= maxSize then Groups(paras[1..], maxSize, cur + [paras[0]])
    else (if cur == [] then [] else [cur]) + Groups(paras[1..], maxSize, [paras[0]])
  }

  /** What `chunk_text(text, maxSize)` returns. */
  function ChunkSpec(text: string, maxSize: nat): seq<string> {
    if |text| <= maxSize then [text]
    else
      Render(Groups(Split(text, Sep), maxSize, []))
  }

  /** The chunk text of each group, stripped (line 357). */
  function Render(gs: seq<seq<string>>): (cs: seq<string>)
    ensures |cs| == |gs|
  {
    seq(|gs|, k requires 0 <= k < |gs| => Strip(Block(gs[k])))
  }

  lemma RenderPush(gs: seq<seq<string>>, g: seq<string>)
    ensures Render(gs + [g]) == Render(gs) + [Strip(Block(g))]
  {
    var a, b := Render(gs + [g]), Render(gs) + [Strip(Block(g))];
    forall k | 0 <= k < |a| ensures a[k] == b[k] {
      if k < |gs| { assert (gs + [g])[k] == gs[k]; }
    }
  }

  function Flatten(gs: seq<seq<string>>): seq<string> {
    if gs == [] then [] else gs[0] + Flatten(gs[1..])
  }

  /** A group is one paragraph, or its paragraphs joined back fit within `maxSize`. */
  predicate GroupFits(g: seq<string>, maxSize: nat) {
    |g| >= 1 && (|g| == 1 || |Join(g, Sep)| <= maxSize)
  }

  /** The groups, read in order, are exactly the paragraphs: none is split,
      dropped or reordered. */
  lemma {:induction false} GroupsFlatten(paras: seq<string>, maxSize: nat, cur: seq<string>)
    ensures Flatten(Groups(paras, maxSize, cur)) == cur + paras
    decreases |paras|
  {
    if paras == [] {
      if cur != [] {
        FlattenCons(cur, []);
        assert [cur] + [] == [cur];
      }
    } else {
      var p, more := paras[0], paras[1..];
      assert [p] + more == paras;
      if |Block(cur)| + |p| <= maxSize {
        assert Groups(paras, maxSize, cur) == Groups(more, maxSize, cur + [p]);
        GroupsFlatten(more, maxSize, cur + [p]);
        assert cur + [p] + more == cur + paras;
      } else {
        var rest := Groups(more, maxSize, [p]);
        GroupsFlatten(more, maxSize, [p]);
        if cur != [] {
          assert Groups(paras, maxSize, cur) == [cur] + rest;
          FlattenCons(cur, rest);
        } else {
          assert Groups(paras, maxSize, cur) == rest;
        }
      }
    }
  }

  lemma FlattenCons(g: seq<string>, rest: seq<seq<string>>)
    ensures Flatten([g] + rest) == g + Flatten(rest)
  {
    assert ([g] + rest)[0] == g && ([g] + rest)[1..] == rest;
  }

  /** Every group fits, unless it is a single paragraph. */
  lemma {:induction false} GroupsFit(paras: seq<string>, maxSize: nat, cur: seq<string>)
    requires cur == [] || GroupFits(cur, maxSize)
    ensures forall g | g in Groups(paras, maxSize, cur) :: GroupFits(g, maxSize)
    decreases |paras|
  {
    if paras != [] {
      if |Block(cur)| + |paras[0]| <= maxSize {
        if cur != [] { JoinAppend(cur, paras[0], Sep); }
        GroupsFit(paras[1..], maxSize, cur + [paras[0]]);
      } else {
        GroupsFit(paras[1..], maxSize, [paras[0]]);
      }
    }
  }

  /** For a text longer than `maxSize`, chunk `k` is the stripped text of
      group `k`: consecutive paragraphs joined by `"\n\n"`. */
  lemma ChunkIsStrippedGroup(text: string, maxSize: nat, k: nat)
    requires |text| > maxSize
    ensures var gs := Groups(Split(text, Sep), maxSize, []);
      |ChunkSpec(text, maxSize)| == |gs|
      && (k < |gs| ==> ChunkSpec(text, maxSize)[k] == Strip(Join(gs[k], Sep)))
  {
    var gs := Groups(Split(text, Sep), maxSize, []);
    if k < |gs| {
      GroupsFit(Split(text, Sep), maxSize, []);
      assert gs[k] in gs;
      StripAppendSpace(Join(gs[k], Sep), Sep);
    }
  }

  /** A text within the limit is one chunk, returned as it is (not stripped). */
  lemma ShortTextSingleChunk(text: string, maxSize: nat)
    requires |text| <= maxSize
    ensures ChunkSpec(text, maxSize) == [text]
  {
  }

  /** A longer text is the chunks' paragraphs in order: joining all groups
      with `"\n\n"` gives the text back. */
  lemma ChunksCoverText(text: string, maxSize: nat)
    requires |text| > maxSize
    ensures var gs := Groups(Split(text, Sep), maxSize, []);
      Join(Flatten(gs), Sep) == text
  {
    GroupsFlatten(Split(text, Sep), maxSize, []);
    assert [] + Split(text, Sep) == Split(text, Sep);
    JoinSplit(text, Sep);
  }

  /** A chunk is at most `maxSize` long unless it comes from one paragraph
      longer than `maxSize`. */
  lemma ChunkBound(text: string, maxSize: nat, k: nat)
    requires k < |ChunkSpec(text, maxSize)|
    ensures var chunk := ChunkSpec(text, maxSize)[k];
      |chunk| <= maxSize
      || (var gs := Groups(Split(text, Sep), maxSize, []);
          |text| > maxSize && |gs[k]| == 1 && |gs[k][0]| > maxSize && chunk == Strip(gs[k][0]))
  {
    if |text| > maxSize {
      var gs := Groups(Split(text, Sep), maxSize, []);
      ChunkIsStrippedGroup(text, maxSize, k);
      GroupsFit(Split(text, Sep), maxSize, []);
      assert gs[k] in gs;
      if |gs[k]| == 1 { assert Join(gs[k], Sep) == gs[k][0]; }
    }
  }

  lemma {:induction false} SplitFindsSeparator(s: string, sep: string, i: nat)
    requires |sep| > 0 && i + |sep| <= |s| && s[i..i + |sep|] == sep
    ensures |Split(s, sep)| >= 2
    decreases |s|
  {
    if s[..|sep|] != sep {
      assert i > 0;
      assert s[1..][i - 1..i - 1 + |sep|] == s[i..i + |sep|];
      SplitFindsSeparator(s[1..], sep, i - 1);
    }
  }

  lemma FlattenShort(gs: seq<seq<string>>)
    requires |gs| <= 1
    ensures Flatten(gs) == if gs == [] then [] else gs[0]
  {
    if gs != [] { assert Flatten(gs) == gs[0] + Flatten([]); }
  }

  /** A text over the limit that contains a paragraph break yields at least two chunks. */
  lemma LongTextSplits(text: string, maxSize: nat, i: nat)
    requires |text| > maxSize
    requires i + 2 <= |text| && text[i..i + 2] == Sep
    ensures |ChunkSpec(text, maxSize)| >= 2
  {
    var paras := Split(text, Sep);
    var gs := Groups(paras, maxSize, []);
    SplitFindsSeparator(text, Sep, i);
    GroupsFlatten(paras, maxSize, []);
    assert [] + paras == paras;
    if |gs| <= 1 {
      FlattenShort(gs);
      GroupsFit(paras, maxSize, []);
      assert gs[0] in gs;
      JoinSplit(text, Sep);
      assert false;
    }
  }

  /** One step of the loop over the paragraphs, as the groups see it. */
  lemma GroupsStep(paras: seq<string>, i: nat, maxSize: nat, cur: seq<string>)
    requires i < |paras|
    ensures Groups(paras[i..], maxSize, cur) ==
      if |Block(cur)| + |paras[i]| <= maxSize then Groups(paras[i + 1..], maxSize, cur + [paras[i]])
      else (if cur == [] then [] else [cur]) + Groups(paras[i + 1..], maxSize, [paras[i]])
  {
    assert paras[i..][0] == paras[i] && paras[i..][1..] == paras[i + 1..];
  }

  /** The body of the loop of lines 350-358: place paragraph `i`, either on
      the current chunk or, emitting the current chunk when it is non-empty,
      at the start of the next. */
  method PlaceParagraph(paragraphs: seq<string>, i: nat, maxSize: nat, chunks: seq<string>, current: string,
                        ghost done: seq<seq<string>>, ghost group: seq<string>)
    returns (chunks': seq<string>, current': string, ghost done': seq<seq<string>>, ghost group': seq<string>)
    requires i < |paragraphs| && current == Block(group) && chunks == Render(done)
    ensures current' == Block(group') && chunks' == Render(done')
    ensures done' + Groups(paragraphs[i + 1..], maxSize, group') == done + Groups(paragraphs[i..], maxSize, group)
  {
    var p := paragraphs[i];
    GroupsStep(paragraphs, i, maxSize, group);
    if |current| + |p| <= maxSize {
      BlockPush(group, p);
      chunks', current', done', group' := chunks, current + p + Sep, done, group + [p];
    } else {
      BlockSingle(p);
      if group != [] { RenderPush(done, group); }
      StartGroup(done, group, Groups(paragraphs[i + 1..], maxSize, [p]));
      chunks', done' := if current != "" then chunks + [Strip(current)] else chunks,
                        if current != "" then done + [group] else done;
      current', group' := p + Sep, [p];
    }
  }

  /** A group of one paragraph is that paragraph and a separator. */
  lemma BlockSingle(p: string)
    ensures Block([p]) == p + Sep
  {
    assert Join([p], Sep) == p;
  }

  /** Emitting a non-empty group moves it from the pending groups to the done ones. */
  lemma StartGroup(done: seq<seq<string>>, group: seq<string>, tail: seq<seq<string>>)
    ensures var done' := if group != [] then done + [group] else done;
      done' + tail == done + ((if group == [] then [] else [group]) + tail)
  {
    if group == [] {
      assert [] + tail == tail;
    } else {
      assert done + ([group] + tail) == (done + [group]) + tail;
    }
  }

  /** `chunk_text`. */
  method ChunkText(text: string, maxSize: nat) returns (chunks: seq<string>)
    ensures chunks == ChunkSpec(text, maxSize)
  {
    if |text| <= maxSize {
      return [text];
    }
    chunks := [];
    var current := "";
    var paragraphs := Split(text, Sep);
    ghost var done: seq<seq<string>> := [];
    ghost var group: seq<string> := [];
    var i := 0;
    while i < |paragraphs|
      invariant 0 <= i <= |paragraphs|
      invariant current == Block(group) && chunks == Render(done)
      invariant done + Groups(paragraphs[i..], maxSize, group) == Groups(paragraphs, maxSize, [])
    {
      chunks, current, done, group := PlaceParagraph(paragraphs, i, maxSize, chunks, current, done, group);
      i := i + 1;
    }
    assert paragraphs[i..] == [];
    if current != "" {
      RenderPush(done, group);
      chunks := chunks + [Strip(current)];
      done := done + [group];
    } else {
      assert done + [] == done;
    }
  }
}
