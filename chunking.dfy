/** `splitTextIntoChunks` of the retrieval library: the text is split into
    sentences at a terminator followed by white space, the sentences are packed
    greedily into chunks joined by ". " under a soft size limit measured in UTF-16
    code units, and blank chunks are dropped.

    The specification has three layers: `Sentences` (the regular-expression split),
    `Groups` (which consecutive sentences share a chunk) and `ChunksOf` (the glued,
    filtered result); the method follows the source's loop and is proved equal to
    `ChunksOf`. */
module Chunking {
  import opened JsText

  /** The class `[.!?。！？]`. */
  predicate IsTerminator(c: char) {
    c in ".!?。！？"
  }

  /** The length of the white-space run `s` starts with (the greedy `\s+`). */
  function WhitespaceRun(s: string): (n: nat)
    ensures n <= |s|
    ensures forall i :: 0 <= i < n ==> IsWhitespace(s[i])
    ensures n < |s| ==> !IsWhitespace(s[n])
    decreases |s|
  {
    if s != [] && IsWhitespace(s[0]) then 1 + WhitespaceRun(s[1..]) else 0
  }

  /** `/[.!?。！？]\s+/` matches at offset `i` of `s`. */
  predicate SplitsAt(s: string, i: int) {
    0 <= i && i + 1 < |s| && IsTerminator(s[i]) && IsWhitespace(s[i + 1])
  }

  predicate HasSplitPoint(s: string) {
    exists i :: 0 <= i < |s| && SplitsAt(s, i)
  }

  /** The number of characters one match takes: the terminator and the whole run. */
  function MatchLength(s: string): (n: nat)
    requires SplitsAt(s, 0)
    ensures 2 <= n <= |s|
  {
    1 + WhitespaceRun(s[1..])
  }

  /** `s.split(/[.!?。！？]\s+/)`: scanning left to right, each match ends the
      current sentence and is dropped. */
  function Sentences(s: string): (r: seq<string>)
    ensures |r| >= 1
    ensures r[0] != [] ==> s != [] && r[0][0] == s[0]
    decreases |s|
  {
    if SplitsAt(s, 0) then [[]] + Sentences(s[MatchLength(s)..])
    else if s == [] then [[]]
    else
      var rest := Sentences(s[1..]);
      [[s[0]] + rest[0]] + rest[1..]
  }

  /** The matches the split drops, in order. */
  function Separators(s: string): (r: seq<string>)
    ensures |r| == |Sentences(s)| - 1
    decreases |s|
  {
    if SplitsAt(s, 0) then [s[..MatchLength(s)]] + Separators(s[MatchLength(s)..])
    else if s == [] then []
    else Separators(s[1..])
  }

  /** A match of the separator pattern. */
  predicate IsSeparator(sep: string) {
    |sep| >= 2 && IsTerminator(sep[0]) && forall i :: 1 <= i < |sep| ==> IsWhitespace(sep[i])
  }

  /** parts[0] + seps[0] + parts[1] + ... + parts[|seps|]. */
  function Weave(parts: seq<string>, seps: seq<string>): string
    requires |parts| == |seps| + 1
    decreases |seps|
  {
    if seps == [] then parts[0] else parts[0] + seps[0] + Weave(parts[1..], seps[1..])
  }

  lemma WeaveCons(c: char, parts: seq<string>, seps: seq<string>)
    requires |parts| == |seps| + 1
    ensures Weave([[c] + parts[0]] + parts[1..], seps) == [c] + Weave(parts, seps)
  {
    var ps := [[c] + parts[0]] + parts[1..];
    assert ps[1..] == parts[1..];
  }

  /** Each dropped separator is a terminator followed by one or more white-space
      characters. */
  lemma {:induction false} SeparatorsMatch(s: string)
    ensures forall i :: 0 <= i < |Separators(s)| ==> IsSeparator(Separators(s)[i])
    decreases |s|
  {
    if SplitsAt(s, 0) {
      var n := MatchLength(s);
      SeparatorsMatch(s[n..]);
      var sep := s[..n];
      assert IsSeparator(sep) by {
        forall i | 1 <= i < n ensures IsWhitespace(sep[i]) {
          assert sep[i] == s[1..][i - 1];
        }
      }
      assert Separators(s) == [sep] + Separators(s[n..]);
    } else if s != [] {
      SeparatorsMatch(s[1..]);
    }
  }

  /** At a split point the first sentence is empty and the separator comes first. */
  lemma WeaveAtSplit(s: string)
    requires SplitsAt(s, 0)
    ensures Weave(Sentences(s), Separators(s)) ==
      s[..MatchLength(s)] + Weave(Sentences(s[MatchLength(s)..]), Separators(s[MatchLength(s)..]))
  {
    var n := MatchLength(s);
    SplitUnfolds(s);
    WeaveConsSep([], Sentences(s[n..]), s[..n], Separators(s[n..]));
    assert [] + s[..n] == s[..n];
  }

  /** One step of the split at a match. */
  lemma SplitUnfolds(s: string)
    requires SplitsAt(s, 0)
    ensures Sentences(s) == [[]] + Sentences(s[MatchLength(s)..])
    ensures Separators(s) == [s[..MatchLength(s)]] + Separators(s[MatchLength(s)..])
  {
  }

  lemma WeaveConsSep(p: string, parts: seq<string>, sep: string, seps: seq<string>)
    requires |parts| == |seps| + 1
    ensures Weave([p] + parts, [sep] + seps) == p + sep + Weave(parts, seps)
  {
    assert ([p] + parts)[1..] == parts && ([sep] + seps)[1..] == seps;
  }

  /** The sentences, with the dropped separators put back between them, are the
      text: nothing else is lost or added. */
  lemma {:induction false} SentencesWeave(s: string)
    ensures Weave(Sentences(s), Separators(s)) == s
    decreases |s|
  {
    if SplitsAt(s, 0) {
      var n := MatchLength(s);
      SentencesWeave(s[n..]);
      WeaveAtSplit(s);
      assert s == s[..n] + s[n..];
    } else if s != [] {
      SentencesWeave(s[1..]);
      WeaveCons(s[0], Sentences(s[1..]), Separators(s[1..]));
      assert s == [s[0]] + s[1..];
    }
  }

  /** The split is greedy: a sentence after the first never starts with white
      space, since the run before it belongs to the separator. */
  lemma {:induction false} SentencesStartGreedy(s: string)
    ensures forall i :: 1 <= i < |Sentences(s)| && Sentences(s)[i] != [] ==> !IsWhitespace(Sentences(s)[i][0])
    decreases |s|
  {
    if SplitsAt(s, 0) {
      SentencesStartGreedy(s[MatchLength(s)..]);
      GreedyAtSplit(s);
    } else if s != [] {
      SentencesStartGreedy(s[1..]);
      var r := Sentences(s);
      forall i | 1 <= i < |r| && r[i] != [] ensures !IsWhitespace(r[i][0]) {
        assert r[i] == Sentences(s[1..])[i];
      }
    }
  }

  /** The sentence after a match starts after the whole white-space run. */
  lemma GreedyAtSplit(s: string)
    requires SplitsAt(s, 0)
    requires var t := Sentences(s[MatchLength(s)..]);
      forall i :: 1 <= i < |t| && t[i] != [] ==> !IsWhitespace(t[i][0])
    ensures forall i :: 1 <= i < |Sentences(s)| && Sentences(s)[i] != [] ==> !IsWhitespace(Sentences(s)[i][0])
  {
    var n := MatchLength(s);
    var t := Sentences(s[n..]);
    SplitUnfolds(s);
    var r := Sentences(s);
    forall i | 1 <= i < |r| && r[i] != [] ensures !IsWhitespace(r[i][0]) {
      assert r[i] == t[i - 1];
      if i == 1 {
        assert s[n..][0] == s[1..][n - 1];
      }
    }
  }

  /** A text without a split point is one sentence, however long. */
  lemma {:induction false} SentencesWithoutSplitPoint(s: string)
    requires !HasSplitPoint(s)
    ensures Sentences(s) == [s]
    decreases |s|
  {
    if s != [] {
      assert !SplitsAt(s, 0);
      assert !HasSplitPoint(s[1..]) by {
        if HasSplitPoint(s[1..]) {
          var i :| 0 <= i < |s[1..]| && SplitsAt(s[1..], i);
          assert s[1..][i] == s[i + 1] && s[1..][i + 1] == s[i + 2];
          assert SplitsAt(s, i + 1);
        }
      }
      SentencesWithoutSplitPoint(s[1..]);
      assert [s[0]] + s[1..] == s;
    }
  }

  /** `acc += (acc ? '. ' : '') + s`. */
  function Glue(acc: string, s: string): string {
    acc + (if acc != [] then ". " else []) + s
  }

  /** The chunk a run of sentences becomes: the left fold of Glue from "". */
  function GlueAll(g: seq<string>): string
    decreases |g|
  {
    if g == [] then [] else Glue(GlueAll(g[..|g| - 1]), g[|g| - 1])
  }

  /** The fit test `currentChunk.length + sentence.length <= maxChunkSize`. */
  predicate Fits(acc: string, s: string, maxSize: nat) {
    Utf16Length(acc) + Utf16Length(s) <= maxSize
  }

  /** The greedy packing from a current run `group`: a sentence that fits joins the
      run, one that does not closes it and starts the next run. The first run may be
      empty (when the first sentence does not fit). */
  function GroupsFrom(group: seq<string>, ss: seq<string>, maxSize: nat): (gs: seq<seq<string>>)
    ensures |gs| >= 1
    decreases |ss|
  {
    if ss == [] then [group]
    else if Fits(GlueAll(group), ss[0], maxSize) then GroupsFrom(group + [ss[0]], ss[1..], maxSize)
    else [group] + GroupsFrom([ss[0]], ss[1..], maxSize)
  }

  function Groups(ss: seq<string>, maxSize: nat): seq<seq<string>> {
    GroupsFrom([], ss, maxSize)
  }

  function MapGlue(gs: seq<seq<string>>): (r: seq<string>)
    ensures |r| == |gs| && forall i :: 0 <= i < |gs| ==> r[i] == GlueAll(gs[i])
    decreases |gs|
  {
    if gs == [] then [] else [GlueAll(gs[0])] + MapGlue(gs[1..])
  }

  /** `chunks.filter(chunk => chunk.trim().length > 0)`. */
  function KeepNonBlank(xs: seq<string>): (r: seq<string>)
    ensures forall i :: 0 <= i < |r| ==> !IsBlank(r[i]) && r[i] in xs
    ensures forall x :: x in xs && !IsBlank(x) ==> x in r
    decreases |xs|
  {
    if xs == [] then []
    else if IsBlank(xs[0]) then KeepNonBlank(xs[1..])
    else [xs[0]] + KeepNonBlank(xs[1..])
  }

  /** The pushes guarded by `if (currentChunk)`. */
  function KeepNonEmpty(xs: seq<string>): seq<string>
    decreases |xs|
  {
    if xs == [] then [] else if xs[0] == [] then KeepNonEmpty(xs[1..]) else [xs[0]] + KeepNonEmpty(xs[1..])
  }

  function Concat(gs: seq<seq<string>>): seq<string>
    decreases |gs|
  {
    if gs == [] then [] else gs[0] + Concat(gs[1..])
  }

  /** What `splitTextIntoChunks(text, maxSize)` returns. */
  function ChunksOf(text: string, maxSize: nat): (chunks: seq<string>)
    ensures forall i :: 0 <= i < |chunks| ==> !IsBlank(chunks[i])
  {
    KeepNonBlank(MapGlue(Groups(Sentences(text), maxSize)))
  }

  lemma {:induction false} KeepNonEmptyAppend(xs: seq<string>, ys: seq<string>)
    ensures KeepNonEmpty(xs + ys) == KeepNonEmpty(xs) + KeepNonEmpty(ys)
    decreases |xs|
  {
    if xs == [] {
      assert xs + ys == ys;
    } else {
      assert (xs + ys)[1..] == xs[1..] + ys;
      KeepNonEmptyAppend(xs[1..], ys);
    }
  }

  lemma {:induction false} KeepNonBlankOfNonEmpty(xs: seq<string>)
    ensures KeepNonBlank(KeepNonEmpty(xs)) == KeepNonBlank(xs)
    decreases |xs|
  {
    if xs != [] {
      KeepNonBlankOfNonEmpty(xs[1..]);
    }
  }

  lemma {:induction false} MapGlueAppend(gs: seq<seq<string>>, g: seq<string>)
    ensures MapGlue(gs + [g]) == MapGlue(gs) + [GlueAll(g)]
  {
  }

  lemma GlueAllSnoc(g: seq<string>, s: string)
    ensures GlueAll(g + [s]) == Glue(GlueAll(g), s)
  {
    assert (g + [s])[..|g|] == g;
  }

  /** One step of the packing, at position `i` of the sentences. */
  lemma GroupsFromStep(group: seq<string>, ss: seq<string>, i: nat, maxSize: nat)
    requires i < |ss|
    ensures GroupsFrom(group, ss[i..], maxSize) ==
      if Fits(GlueAll(group), ss[i], maxSize) then GroupsFrom(group + [ss[i]], ss[i + 1..], maxSize)
      else [group] + GroupsFrom([ss[i]], ss[i + 1..], maxSize)
  {
    assert ss[i..][0] == ss[i] && ss[i..][1..] == ss[i + 1..];
  }

  /** Closing the current run pushes its chunk when it is non-empty. */
  lemma CloseGroup(done: seq<seq<string>>, group: seq<string>)
    ensures KeepNonEmpty(MapGlue(done + [group])) ==
      KeepNonEmpty(MapGlue(done)) + (if GlueAll(group) != [] then [GlueAll(group)] else [])
  {
    MapGlueAppend(done, group);
    KeepNonEmptyAppend(MapGlue(done), [GlueAll(group)]);
  }

  /** `splitTextIntoChunks(text, maxChunkSize)`: the loop over the sentences with
      the current chunk carried from one sentence to the next. */
  method SplitTextIntoChunks(text: string, maxChunkSize: nat) returns (chunks: seq<string>)
    ensures chunks == ChunksOf(text, maxChunkSize)
  {
    var sentences := Sentences(text);
    var pushed: seq<string> := [];
    var currentChunk: string := "";
    ghost var done: seq<seq<string>> := [];
    ghost var group: seq<string> := [];
    for i := 0 to |sentences|
      invariant currentChunk == GlueAll(group)
      invariant Groups(sentences, maxChunkSize) == done + GroupsFrom(group, sentences[i..], maxChunkSize)
      invariant pushed == KeepNonEmpty(MapGlue(done))
    {
      var sentence := sentences[i];
      GroupsFromStep(group, sentences, i, maxChunkSize);
      if Utf16Length(currentChunk) + Utf16Length(sentence) <= maxChunkSize {
        currentChunk := currentChunk + (if currentChunk != "" then ". " else "") + sentence;
        GlueAllSnoc(group, sentence);
        group := group + [sentence];
      } else {
        CloseGroup(done, group);
        if currentChunk != "" {
          pushed := pushed + [currentChunk];
        }
        AppendAssoc(done, [group], GroupsFrom([sentence], sentences[i + 1..], maxChunkSize));
        done := done + [group];
        group := [sentence];
        assert GlueAll(group) == Glue([], sentence);
        currentChunk := sentence;
      }
    }
    CloseGroup(done, group);
    if currentChunk != "" {
      pushed := pushed + [currentChunk];
    }
    ghost var all := done + [group];
    assert sentences[|sentences|..] == [];
    assert Groups(sentences, maxChunkSize) == all;
    assert pushed == KeepNonEmpty(MapGlue(all));
    KeepNonBlankOfNonEmpty(MapGlue(all));
    chunks := KeepNonBlank(pushed);
    assert chunks == KeepNonBlank(MapGlue(Groups(sentences, maxChunkSize)));
  }

  lemma AppendAssoc<T>(a: seq<T>, b: seq<T>, c: seq<T>)
    ensures a + (b + c) == (a + b) + c
  {
  }

  lemma {:induction false} ConcatAppend(gs: seq<seq<string>>, hs: seq<seq<string>>)
    ensures Concat(gs + hs) == Concat(gs) + Concat(hs)
    decreases |gs|
  {
    if gs == [] {
      assert gs + hs == hs;
    } else {
      assert (gs + hs)[1..] == gs[1..] + hs;
      ConcatAppend(gs[1..], hs);
    }
  }

  lemma {:induction false} GroupsFromConcat(group: seq<string>, ss: seq<string>, maxSize: nat)
    ensures Concat(GroupsFrom(group, ss, maxSize)) == group + ss
    decreases |ss|
  {
    if ss != [] {
      if Fits(GlueAll(group), ss[0], maxSize) {
        GroupsFromConcat(group + [ss[0]], ss[1..], maxSize);
      } else {
        GroupsFromConcat([ss[0]], ss[1..], maxSize);
        ConcatAppend([group], GroupsFrom([ss[0]], ss[1..], maxSize));
      }
      assert ss == [ss[0]] + ss[1..];
    }
  }

  /** The runs are consecutive sentences in input order: concatenated, they are
      the sentences, none dropped, repeated or reordered. */
  lemma GroupsPartition(ss: seq<string>, maxSize: nat)
    ensures Concat(Groups(ss, maxSize)) == ss
  {
    GroupsFromConcat([], ss, maxSize);
  }

  /** A run of one sentence, or a run whose chunk is within the limit plus the
      uncounted ". " separator. */
  predicate WithinLimit(g: seq<string>, maxSize: nat) {
    |g| <= 1 || Utf16Length(GlueAll(g)) <= maxSize + 2
  }

  lemma GlueLength(acc: string, s: string)
    ensures Utf16Length(Glue(acc, s)) <= Utf16Length(acc) + Utf16Length(s) + 2
  {
    var sep: string := if acc != [] then ". " else [];
    Utf16LengthAppend(acc, sep);
    Utf16LengthAppend(acc + sep, s);
  }

  lemma {:induction false} GroupsFromWithinLimit(group: seq<string>, ss: seq<string>, maxSize: nat)
    requires WithinLimit(group, maxSize)
    ensures forall i :: 0 <= i < |GroupsFrom(group, ss, maxSize)| ==> WithinLimit(GroupsFrom(group, ss, maxSize)[i], maxSize)
    decreases |ss|
  {
    if ss != [] {
      if Fits(GlueAll(group), ss[0], maxSize) {
        ExtendWithinLimit(group, ss[0], maxSize);
        GroupsFromWithinLimit(group + [ss[0]], ss[1..], maxSize);
      } else {
        GroupsFromWithinLimit([ss[0]], ss[1..], maxSize);
        ConsWithinLimit(group, GroupsFrom([ss[0]], ss[1..], maxSize), maxSize);
      }
    }
  }

  /** A sentence that passes the fit test keeps the run within the limit. */
  lemma ExtendWithinLimit(group: seq<string>, s: string, maxSize: nat)
    requires Fits(GlueAll(group), s, maxSize)
    ensures WithinLimit(group + [s], maxSize)
  {
    var g := group + [s];
    assert g[..|g| - 1] == group;
    GlueLength(GlueAll(group), s);
  }

  lemma ConsWithinLimit(group: seq<string>, rest: seq<seq<string>>, maxSize: nat)
    requires WithinLimit(group, maxSize)
    requires forall i :: 0 <= i < |rest| ==> WithinLimit(rest[i], maxSize)
    ensures forall i :: 0 <= i < |[group] + rest| ==> WithinLimit(([group] + rest)[i], maxSize)
  {
    var gs := [group] + rest;
    forall i | 0 <= i < |gs| ensures WithinLimit(gs[i], maxSize) {
      if i > 0 {
        assert gs[i] == rest[i - 1];
      }
    }
  }

  lemma {:induction false} InConcat(gs: seq<seq<string>>, i: nat, j: nat)
    requires i < |gs| && j < |gs[i]|
    ensures gs[i][j] in Concat(gs)
    decreases i
  {
    if i > 0 {
      InConcat(gs[1..], i - 1, j);
    }
  }

  /** Every chunk is a single sentence, possibly longer than the limit, or is at
      most two code units over the limit: the fit test ignores the ". " it adds. */
  lemma ChunkSize(text: string, maxSize: nat)
    ensures forall c :: c in ChunksOf(text, maxSize) ==>
              c in Sentences(text) || Utf16Length(c) <= maxSize + 2
  {
    var ss := Sentences(text);
    var gs := Groups(ss, maxSize);
    GroupsPartition(ss, maxSize);
    GroupsFromWithinLimit([], ss, maxSize);
    forall c | c in ChunksOf(text, maxSize) ensures c in ss || Utf16Length(c) <= maxSize + 2 {
      var i :| 0 <= i < |gs| && MapGlue(gs)[i] == c;
      var g := gs[i];
      if |g| == 1 {
        assert g[..0] == [];
        assert c == g[0];
        InConcat(gs, i, 0);
      }
    }
  }

  /** The leading empty sentences, which the fold passes over without a separator. */
  function DropLeadingEmpty(g: seq<string>): seq<string>
    decreases |g|
  {
    if g != [] && g[0] == [] then DropLeadingEmpty(g[1..]) else g
  }

  lemma {:induction false} GlueAllEmpty(g: seq<string>)
    ensures GlueAll(g) == [] <==> forall i :: 0 <= i < |g| ==> g[i] == []
    decreases |g|
  {
    if g != [] {
      GlueAllEmpty(g[..|g| - 1]);
      assert forall i :: 0 <= i < |g| - 1 ==> g[..|g| - 1][i] == g[i];
    }
  }

  lemma {:induction false} DropLeadingEmptyAppend(g: seq<string>, s: string)
    ensures (forall i :: 0 <= i < |g| ==> g[i] == []) ==>
              DropLeadingEmpty(g + [s]) == (if s == [] then [] else [s])
    ensures (exists i :: 0 <= i < |g| && g[i] != []) ==>
              DropLeadingEmpty(g + [s]) == DropLeadingEmpty(g) + [s] && DropLeadingEmpty(g) != []
    decreases |g|
  {
    if g == [] {
      assert g + [s] == [s];
    } else if g[0] == [] {
      assert (g + [s])[1..] == g[1..] + [s];
      DropLeadingEmptyAppend(g[1..], s);
      if exists i :: 0 <= i < |g| && g[i] != [] {
        var i :| 0 <= i < |g| && g[i] != [];
        assert g[1..][i - 1] != [];
      }
      if forall i :: 0 <= i < |g[1..]| ==> g[1..][i] == [] {
        assert forall i :: 0 <= i < |g| ==> g[i] == [] by {
          forall i | 0 <= i < |g| ensures g[i] == [] {
            if i > 0 { assert g[i] == g[1..][i - 1]; }
          }
        }
      }
    }
  }

  /** A chunk is its run's sentences joined by ". ", after the leading empty
      sentences (which the source's truthiness test passes over). */
  lemma {:induction false} GlueAllJoin(g: seq<string>)
    ensures GlueAll(g) == Join(DropLeadingEmpty(g), ". ")
    decreases |g|
  {
    if g != [] {
      var h := g[..|g| - 1];
      var s := g[|g| - 1];
      assert g == h + [s];
      GlueAllJoin(h);
      GlueAllEmpty(h);
      DropLeadingEmptyAppend(h, s);
      if exists i :: 0 <= i < |h| && h[i] != [] {
        JoinAppend(DropLeadingEmpty(h), ". ", s);
      }
    }
  }

  /** A run holding a sentence with a non-white-space character glues to a
      non-blank chunk, so it survives the final filter. */
  lemma {:induction false} GlueAllNonBlank(g: seq<string>, j: nat)
    requires j < |g| && !IsBlank(g[j])
    ensures !IsBlank(GlueAll(g))
    decreases |g|
  {
    var h := g[..|g| - 1];
    var s := g[|g| - 1];
    var acc := GlueAll(h);
    var sep: string := if acc != [] then ". " else [];
    BlankAppend(acc + sep, s);
    BlankAppend(acc, sep);
    if j < |g| - 1 {
      assert h[j] == g[j];
      GlueAllNonBlank(h, j);
    }
  }

  /** Every sentence with a non-white-space character ends up in a chunk: the
      chunk of its run is kept. */
  lemma NonBlankSentenceKept(text: string, maxSize: nat, i: nat, j: nat)
    requires var gs := Groups(Sentences(text), maxSize); i < |gs| && j < |gs[i]| && !IsBlank(gs[i][j])
    ensures GlueAll(Groups(Sentences(text), maxSize)[i]) in ChunksOf(text, maxSize)
  {
    var gs := Groups(Sentences(text), maxSize);
    GlueAllNonBlank(gs[i], j);
    assert GlueAll(gs[i]) == MapGlue(gs)[i];
  }

  /** A non-blank text without a split point is a single chunk, whatever its
      length: unspaced Japanese prose is never cut. */
  lemma SingleChunkWithoutSplitPoint(text: string, maxSize: nat)
    requires !IsBlank(text) && !HasSplitPoint(text)
    ensures ChunksOf(text, maxSize) == [text]
  {
    SentencesWithoutSplitPoint(text);
    var empty: seq<string> := [];
    var ss := [text];
    var g := Groups(ss, maxSize);
    GroupsFromStep(empty, ss, 0, maxSize);
    assert ss[1..] == [];
    assert GlueAll(empty) == [];
    assert GlueAll([text]) == text by { GlueAllSnoc(empty, text); }
    var one: seq<string> := [text];
    assert KeepNonBlank(one) == [text] by {
      assert one[1..] == [];
    }
    if Fits([], text, maxSize) {
      assert empty + [text] == [text];
      assert g == [[text]];
      assert MapGlue(g) == one;
    } else {
      assert g == [[]] + [[text]];
      var xs: seq<string> := [[], text];
      assert MapGlue(g) == xs;
      assert IsBlank(xs[0]) && xs[1..] == one;
      assert KeepNonBlank(xs) == KeepNonBlank(one);
    }
  }

}
