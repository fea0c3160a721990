/** `SanskritDocumentLoader`: reads the `.txt` files of the data directory,
    derives each document's metadata, and packs each document's paragraphs
    greedily into chunks of at most `chunk_size` characters. */
module DocumentLoader {
  import opened Results
  import opened Strings

  /** The pipeline's `CHUNK_SIZE`, also `chunk_documents`'s default. */
  const CHUNK_SIZE: int := 500

  /** Paragraphs are separated by a blank line. */
  const PARAGRAPH_BREAK: string := "\n\n"

  datatype Metadata = Metadata(title: string, source: string, length: nat, numLines: nat)

  datatype Document = Document(filename: string, content: string, metadata: Metadata)

  /** A chunk's metadata is its document's plus `chunk_id`. */
  datatype Chunk = Chunk(content: string, metadata: Metadata, chunkId: nat)

  /** One entry of the data directory's listing: its name and what reading it
      as UTF-8 gave (`None` when opening or decoding raised). */
  datatype DirEntry = DirEntry(name: string, read: Option<string>)

  // ---------------------------------------------------------------------------
  // Metadata

  /** Index of the first `'\n'` in `s`, or `|s|` when there is none. */
  function LineEnd(s: string): (n: nat)
    ensures n <= |s| && '\n' !in s[..n] && (n < |s| ==> s[n] == '\n')
  {
    if s == [] || s[0] == '\n' then 0
    else
      var k := LineEnd(s[1..]);
      assert s[..k + 1] == [s[0]] + s[1..][..k];
      k + 1
  }

  /** The first part of `s.split('\n')` is the text before the first newline. */
  lemma {:induction false} FirstLine(s: string)
    ensures SplitOn(s, "\n")[0] == s[..LineEnd(s)]
  {
    if |s| >= 1 && s[..1] != "\n" {
      FirstLine(s[1..]);
      assert s[..LineEnd(s)] == [s[0]] + s[1..][..LineEnd(s[1..])];
    }
  }

  /** `_extract_metadata`. The title is the first line of the stripped content
      with whitespace collapsed; the filename is never used for it, because
      `split('\n')` never returns an empty list. */
  function ExtractMetadata(filename: string, content: string): (m: Metadata)
    ensures m.source == filename && m.length == |content|
    ensures m.numLines == Count(Strip(content), '\n') + 1
    ensures m.title == Collapse(Strip(content)[..LineEnd(Strip(content))])
  {
    var lines := SplitOn(Strip(content), "\n");
    FirstLine(Strip(content));
    SplitOnCount(Strip(content), '\n');
    var title := if |lines| > 0 then lines[0] else filename;
    Metadata(Collapse(title), filename, |content|, |lines|)
  }

  /** The title is the first line of the stripped content with each run of
      whitespace turned into one space and none at the ends: the same words,
      in order, separated by single spaces, and no other character lost. */
  lemma TitleIsFirstLine(filename: string, content: string)
    ensures var t := ExtractMetadata(filename, content).title;
      var line := Strip(content)[..LineEnd(Strip(content))];
      Collapsed(t) && IsStripped(t)
      && Words(t) == Words(line)
      && Visible(t) == Visible(line)
  {
    CollapseSpec(Strip(content)[..LineEnd(Strip(content))]);
  }

  /** Empty or whitespace-only content gives the title "" and one line. */
  lemma BlankContent(filename: string, content: string)
    requires AllSpace(content)
    ensures ExtractMetadata(filename, content) == Metadata("", filename, |content|, 1)
  {
    StripExact(content, "", "");
    assert content + "" + "" == content;
  }

  // ---------------------------------------------------------------------------
  // Loading

  /** The document an entry gives: only a `.txt` name whose read succeeded. */
  function LoadEntry(e: DirEntry): (docs: seq<Document>)
    ensures |docs| <= 1
    ensures docs != [] <==> EndsWith(e.name, ".txt") && e.read.Some?
  {
    if EndsWith(e.name, ".txt") && e.read.Some?
    then [Document(e.name, e.read.value, ExtractMetadata(e.name, e.read.value))]
    else []
  }

  /** The documents a directory listing gives, in listing order. */
  function LoadAll(entries: seq<DirEntry>): seq<Document> {
    if entries == [] then []
    else LoadAll(entries[..|entries| - 1]) + LoadEntry(entries[|entries| - 1])
  }

  /** Each entry contributes independently: a failed read skips that entry only. */
  lemma {:induction false} LoadAllAppend(a: seq<DirEntry>, b: seq<DirEntry>)
    ensures LoadAll(a + b) == LoadAll(a) + LoadAll(b)
    decreases |b|
  {
    if b == [] {
      assert a + b == a;
    } else {
      var init, last := b[..|b| - 1], b[|b| - 1];
      assert (a + b)[..|a + b| - 1] == a + init && (a + b)[|a + b| - 1] == last;
      var x, y, z := LoadAll(a), LoadAll(init), LoadEntry(last);
      assert LoadAll(a + b) == LoadAll(a + init) + z;
      assert LoadAll(b) == y + z;
      LoadAllAppend(a, init);
      assert (x + y) + z == x + (y + z);
    }
  }

  /** Every loaded document comes from a `.txt` entry whose read succeeded,
      with that entry's name, content and metadata. */
  lemma {:induction false} LoadAllSound(entries: seq<DirEntry>, k: nat)
    requires k < |LoadAll(entries)|
    ensures exists j :: 0 <= j < |entries| && EndsWith(entries[j].name, ".txt")
                        && entries[j].read == Some(LoadAll(entries)[k].content)
                        && LoadAll(entries)[k].filename == entries[j].name
                        && LoadAll(entries)[k].metadata == ExtractMetadata(entries[j].name, entries[j].read.value)
  {
    var init := entries[..|entries| - 1];
    if k < |LoadAll(init)| {
      LoadAllSound(init, k);
      var j :| 0 <= j < |init| && EndsWith(init[j].name, ".txt")
        && init[j].read == Some(LoadAll(init)[k].content)
        && LoadAll(init)[k].filename == init[j].name
        && LoadAll(init)[k].metadata == ExtractMetadata(init[j].name, init[j].read.value);
      assert entries[j] == init[j];
    } else {
      assert entries[|entries| - 1] == entries[|entries| - 1];
    }
  }

  /** Every `.txt` entry whose read succeeded is loaded. */
  lemma {:induction false} LoadAllComplete(entries: seq<DirEntry>, j: nat)
    requires j < |entries| && EndsWith(entries[j].name, ".txt") && entries[j].read.Some?
    ensures LoadEntry(entries[j])[0] in LoadAll(entries)
  {
    assert entries == entries[..j] + [entries[j]] + entries[j + 1..];
    LoadAllAppend(entries[..j] + [entries[j]], entries[j + 1..]);
    LoadAllAppend(entries[..j], [entries[j]]);
    assert LoadAll([entries[j]]) == LoadAll([]) + LoadEntry(entries[j]);
  }

  // ---------------------------------------------------------------------------
  // Chunking: the specification

  /** Every paragraph is non-empty and has no whitespace at either end. */
  predicate Clean(ps: seq<string>) {
    forall p :: p in ps ==> p != [] && IsStripped(p)
  }

  /** The paragraphs `chunk_documents` works on: the parts between blank
      lines, stripped, empty ones dropped. */
  function Kept(parts: seq<string>): seq<string> {
    if parts == [] then []
    else
      var p := Strip(parts[|parts| - 1]);
      Kept(parts[..|parts| - 1]) + (if p == [] then [] else [p])
  }

  lemma {:induction false} KeptClean(parts: seq<string>)
    ensures Clean(Kept(parts))
  {
    if parts != [] {
      KeptClean(parts[..|parts| - 1]);
    }
  }

  function Paragraphs(content: string): seq<string> {
    Kept(SplitOn(content, PARAGRAPH_BREAK))
  }

  /** Progress of the greedy packer: the chunks already closed and the one
      being filled, each a list of paragraphs. */
  datatype Packing = Packing(closed: seq<seq<string>>, open: seq<string>)

  /** A paragraph starts a new chunk exactly when the open chunk is non-empty
      and would grow beyond `size` characters by taking it. */
  function PackStep(st: Packing, p: string, size: int): Packing {
    if st.open != [] && |Join(PARAGRAPH_BREAK, st.open + [p])| > size
    then Packing(st.closed + [st.open], [p])
    else Packing(st.closed, st.open + [p])
  }

  function PackAll(ps: seq<string>, size: int): Packing {
    if ps == [] then Packing([], [])
    else PackStep(PackAll(ps[..|ps| - 1], size), ps[|ps| - 1], size)
  }

  /** The chunks of a paragraph list, each a non-empty list of paragraphs. */
  function Pack(ps: seq<string>, size: int): seq<seq<string>> {
    var st := PackAll(ps, size);
    if st.open == [] then st.closed else st.closed + [st.open]
  }

  function Flatten(groups: seq<seq<string>>): seq<string> {
    if groups == [] then [] else Flatten(groups[..|groups| - 1]) + groups[|groups| - 1]
  }

  /** A chunk fits when it is within `size` characters or is a single paragraph. */
  predicate Fits(g: seq<string>, size: int) {
    |g| == 1 || |Join(PARAGRAPH_BREAK, g)| <= size
  }

  /** Chunk `g` could not have taken the first paragraph of the next chunk `h`. */
  predicate Full(g: seq<string>, h: seq<string>, size: int)
    requires h != []
  {
    |Join(PARAGRAPH_BREAK, g + [h[0]])| > size
  }

  predicate PackingInvariant(ps: seq<string>, st: Packing, size: int) {
    && Flatten(st.closed) + st.open == ps
    && (st.open == [] <==> ps == [])
    && (forall i :: 0 <= i < |st.closed| ==> st.closed[i] != [] && Fits(st.closed[i], size))
    && (st.open != [] ==> Fits(st.open, size))
    && (forall i :: 0 <= i < |st.closed| - 1 ==> Full(st.closed[i], st.closed[i + 1], size))
    && (st.closed != [] && st.open != [] ==> Full(st.closed[|st.closed| - 1], st.open, size))
    && (st.closed != [] ==> st.open != [])
  }

  /** One packing step keeps the invariant. */
  lemma PackStepInvariant(ps: seq<string>, st: Packing, p: string, size: int)
    requires PackingInvariant(ps, st, size)
    ensures PackingInvariant(ps + [p], PackStep(st, p, size), size)
  {
    var st' := PackStep(st, p, size);
    if st.open != [] && |Join(PARAGRAPH_BREAK, st.open + [p])| > size {
      assert st'.closed[..|st'.closed| - 1] == st.closed;
      assert Flatten(st'.closed) == Flatten(st.closed) + st.open;
      assert Flatten(st'.closed) + st'.open == ps + [p];
      assert forall i :: 0 <= i < |st.closed| ==> st'.closed[i] == st.closed[i];
      assert Full(st.open, st'.open, size);
    } else {
      assert Flatten(st'.closed) + st'.open == ps + [p];
      assert Fits(st'.open, size);
      assert st.open != [] ==> st'.open[0] == st.open[0];
    }
  }

  lemma {:induction false} PackAllInvariant(ps: seq<string>, size: int)
    ensures PackingInvariant(ps, PackAll(ps, size), size)
  {
    if ps == [] {
      assert PackAll(ps, size) == Packing([], []);
    } else {
      var init, p := ps[..|ps| - 1], ps[|ps| - 1];
      var st := PackStep(PackAll(init, size), p, size);
      assert init + [p] == ps;
      assert PackAll(ps, size) == st;
      PackAllInvariant(init, size);
      PackStepInvariant(init, PackAll(init, size), p, size);
    }
  }

  /** What the packer promises: the chunks, in order, are exactly the
      paragraphs (none lost, repeated or split); each chunk is non-empty and
      fits; and each chunk but the last was closed only because the next
      paragraph would not fit. */
  lemma PackSpec(ps: seq<string>, size: int)
    ensures Flatten(Pack(ps, size)) == ps
    ensures Pack(ps, size) == [] <==> ps == []
    ensures forall i :: 0 <= i < |Pack(ps, size)| ==>
      Pack(ps, size)[i] != [] && Fits(Pack(ps, size)[i], size)
    ensures forall i :: 0 <= i < |Pack(ps, size)| - 1 ==>
      Full(Pack(ps, size)[i], Pack(ps, size)[i + 1], size)
  {
    PackAllInvariant(ps, size);
    var st := PackAll(ps, size);
    if st.open != [] {
      assert (st.closed + [st.open])[..|st.closed|] == st.closed;
    }
  }

  /** The text of a chunk: its paragraphs separated by blank lines. */
  function ChunkText(g: seq<string>): string {
    Join(PARAGRAPH_BREAK, g)
  }

  /** The chunks a list of paragraph groups gives, numbered from 0. */
  function Emit(doc: Document, groups: seq<seq<string>>): (cs: seq<Chunk>)
    ensures |cs| == |groups|
  {
    seq(|groups|, i requires 0 <= i < |groups| => Chunk(ChunkText(groups[i]), doc.metadata, i))
  }

  /** The chunks of one document. */
  function ChunkDocument(doc: Document, size: int): seq<Chunk> {
    Emit(doc, Pack(Paragraphs(doc.content), size))
  }

  /** The chunks of all documents, document by document. */
  function ChunkAll(docs: seq<Document>, size: int): seq<Chunk> {
    if docs == [] then []
    else ChunkAll(docs[..|docs| - 1], size) + ChunkDocument(docs[|docs| - 1], size)
  }

  // ---------------------------------------------------------------------------
  // Chunking: what it promises

  /** The chunks' texts, in chunk order (also what `build_index` embeds). */
  function Contents(cs: seq<Chunk>): (texts: seq<string>)
    ensures |texts| == |cs|
    ensures forall i :: 0 <= i < |cs| ==> texts[i] == cs[i].content
  {
    seq(|cs|, i requires 0 <= i < |cs| => cs[i].content)
  }

  lemma {:induction false} JoinEnd(sep: string, parts: seq<string>)
    requires parts != [] && parts[|parts| - 1] != []
    ensures Join(sep, parts) != []
    ensures Join(sep, parts)[|Join(sep, parts)| - 1] == parts[|parts| - 1][|parts[|parts| - 1]| - 1]
  {
    if |parts| > 1 {
      assert parts == parts[..|parts| - 1] + [parts[|parts| - 1]];
      JoinSnoc(sep, parts[..|parts| - 1], parts[|parts| - 1]);
    }
  }

  /** Non-empty stripped paragraphs joined by blank lines form a non-empty stripped text. */
  lemma JoinStripped(g: seq<string>)
    requires g != [] && Clean(g)
    ensures ChunkText(g) != [] && IsStripped(ChunkText(g))
  {
    assert g[0] in g && g[|g| - 1] in g;
    JoinStart(PARAGRAPH_BREAK, g);
    JoinEnd(PARAGRAPH_BREAK, g);
  }

  /** Joining the chunks' texts by blank lines gives the paragraphs joined by blank lines. */
  lemma {:induction false} JoinChunkTexts(groups: seq<seq<string>>)
    requires forall i :: 0 <= i < |groups| ==> groups[i] != []
    ensures Join(PARAGRAPH_BREAK, seq(|groups|, i requires 0 <= i < |groups| => ChunkText(groups[i])))
         == Join(PARAGRAPH_BREAK, Flatten(groups))
  {
    if |groups| > 0 {
      var init, g := groups[..|groups| - 1], groups[|groups| - 1];
      var texts := seq(|groups|, i requires 0 <= i < |groups| => ChunkText(groups[i]));
      var initTexts := seq(|init|, i requires 0 <= i < |init| => ChunkText(init[i]));
      JoinChunkTexts(init);
      assert texts == initTexts + [ChunkText(g)];
      if init != [] {
        JoinSnoc(PARAGRAPH_BREAK, initTexts, ChunkText(g));
        assert Flatten(init) != [] by {
          FlattenNonEmpty(init);
        }
        JoinAppend(PARAGRAPH_BREAK, Flatten(init), g);
      } else {
        assert Flatten(groups) == g;
      }
    }
  }

  lemma {:induction false} FlattenNonEmpty(groups: seq<seq<string>>)
    requires groups != [] && groups[|groups| - 1] != []
    ensures Flatten(groups) != []
  {
  }

  /** What `chunk_documents` promises of each chunk of a document: chunk ids run
      0, 1, 2, ... and carry the document's metadata; the content is non-empty,
      has no whitespace at either end, and is within `size` characters unless it
      is a single paragraph. */
  lemma ChunkBounds(doc: Document, size: int)
    ensures var cs := ChunkDocument(doc, size);
      forall i :: 0 <= i < |cs| ==>
        && cs[i].chunkId == i && cs[i].metadata == doc.metadata
        && cs[i].content != [] && IsStripped(cs[i].content)
        && (|cs[i].content| <= size || cs[i].content in Paragraphs(doc.content))
  {
    var ps := Paragraphs(doc.content);
    var groups := Pack(ps, size);
    var cs := ChunkDocument(doc, size);
    PackSpec(ps, size);
    KeptClean(SplitOn(doc.content, PARAGRAPH_BREAK));
    forall i | 0 <= i < |cs|
      ensures cs[i].content != [] && IsStripped(cs[i].content)
      ensures |cs[i].content| <= size || cs[i].content in ps
    {
      FlattenMember(groups, i);
      JoinStripped(groups[i]);
      if |groups[i]| == 1 {
        assert groups[i][0] in ps;
      }
    }
  }

  /** What `chunk_documents` promises of a document as a whole: its chunks joined
      by blank lines are its paragraphs joined by blank lines, and it has no chunk
      exactly when it has no non-blank paragraph. */
  lemma ChunksCoverParagraphs(doc: Document, size: int)
    ensures var cs := ChunkDocument(doc, size);
      && Join(PARAGRAPH_BREAK, Contents(cs)) == Join(PARAGRAPH_BREAK, Paragraphs(doc.content))
      && (cs == [] <==> Paragraphs(doc.content) == [])
  {
    var ps := Paragraphs(doc.content);
    var groups := Pack(ps, size);
    var cs := ChunkDocument(doc, size);
    PackSpec(ps, size);
    JoinChunkTexts(groups);
    assert Contents(cs) == seq(|groups|, i requires 0 <= i < |groups| => ChunkText(groups[i]));
  }

  /** The paragraphs of each group are paragraphs of the flattened list. */
  lemma {:induction false} FlattenMember(groups: seq<seq<string>>, i: nat)
    requires i < |groups|
    ensures forall x :: x in groups[i] ==> x in Flatten(groups)
  {
    if i < |groups| - 1 {
      FlattenMember(groups[..|groups| - 1], i);
    }
  }

  // ---------------------------------------------------------------------------
  // The loader object

  /** The text `current_chunk` holds after taking the paragraphs of `open`:
      each followed by a blank line. */
  function Buffer(open: seq<string>): string {
    if open == [] then "" else Buffer(open[..|open| - 1]) + open[|open| - 1] + PARAGRAPH_BREAK
  }

  /** `current_chunk` is the open chunk's text plus a trailing blank line, so its
      length already counts the separator the next paragraph would need. */
  lemma {:induction false} BufferIsText(open: seq<string>)
    requires open != []
    ensures Buffer(open) == ChunkText(open) + PARAGRAPH_BREAK
  {
    var init := open[..|open| - 1];
    if init != [] {
      BufferIsText(init);
      assert open == init + [open[|open| - 1]];
      JoinSnoc(PARAGRAPH_BREAK, init, open[|open| - 1]);
    }
  }

  /** Stripping the buffer gives the open chunk's text. */
  lemma StripBuffer(open: seq<string>)
    requires Clean(open)
    ensures Strip(Buffer(open)) == ChunkText(open)
    ensures Buffer(open) == "" <==> open == []
  {
    if open != [] {
      BufferIsText(open);
      JoinStripped(open);
      assert AllSpace(PARAGRAPH_BREAK);
      StripTail(ChunkText(open), PARAGRAPH_BREAK);
    }
  }

  /** The source's flush test, stated on `current_chunk`, is the packer's test. */
  lemma FlushTest(open: seq<string>, p: string, size: int)
    requires Clean(open)
    ensures (|Buffer(open)| + |p| > size && Buffer(open) != "")
        == (open != [] && |Join(PARAGRAPH_BREAK, open + [p])| > size)
  {
    StripBuffer(open);
    if open != [] {
      BufferIsText(open);
      JoinSnoc(PARAGRAPH_BREAK, open, p);
    }
  }

  lemma CleanSnoc(ps: seq<string>, p: string)
    requires Clean(ps) && p != [] && IsStripped(p)
    ensures Clean(ps + [p])
  {
  }

  /** The open chunk of a packing of clean paragraphs is clean. */
  lemma {:induction false} OpenClean(ps: seq<string>, size: int)
    requires Clean(ps)
    ensures Clean(PackAll(ps, size).open)
  {
    if ps != [] {
      var init, p := ps[..|ps| - 1], ps[|ps| - 1];
      assert p in ps;
      assert forall x :: x in init ==> x in ps;
      OpenClean(init, size);
      CleanSnoc(PackAll(init, size).open, p);
      CleanSnoc([], p);
    }
  }

  /** The open chunk while `chunk_documents` reads the parts of a document. */
  lemma OpenParagraphsClean(parts: seq<string>, i: nat, size: int)
    requires i <= |parts|
    ensures Clean(PackAll(Kept(parts[..i]), size).open)
  {
    KeptClean(parts[..i]);
    OpenClean(Kept(parts[..i]), size);
  }

  lemma BufferSingle(p: string)
    ensures Buffer([p]) == p + PARAGRAPH_BREAK
  {
    assert [p][..0] == [];
  }

  lemma KeptSnoc(parts: seq<string>, i: nat)
    requires i < |parts|
    ensures Strip(parts[i]) == [] ==> Kept(parts[..i + 1]) == Kept(parts[..i])
    ensures Strip(parts[i]) != [] ==> Kept(parts[..i + 1]) == Kept(parts[..i]) + [Strip(parts[i])]
  {
    assert parts[..i + 1][..i] == parts[..i];
    assert Kept(parts[..i]) + [] == Kept(parts[..i]);
  }

  lemma PackAllSnoc(ps: seq<string>, p: string, size: int)
    ensures PackAll(ps + [p], size) == PackStep(PackAll(ps, size), p, size)
  {
    assert (ps + [p])[..|ps|] == ps;
  }

  lemma EmitSnoc(doc: Document, closed: seq<seq<string>>, g: seq<string>)
    ensures Emit(doc, closed + [g]) == Emit(doc, closed) + [Chunk(ChunkText(g), doc.metadata, |closed|)]
  {
  }

  lemma ChunkAllSnoc(docs: seq<Document>, d: nat, size: int)
    requires d < |docs|
    ensures ChunkAll(docs[..d + 1], size) == ChunkAll(docs[..d], size) + ChunkDocument(docs[d], size)
  {
    assert docs[..d + 1][..d] == docs[..d];
  }

  /** The body of `chunk_documents`'s loop for one document: `current_chunk`
      collects paragraphs, each followed by a blank line, and is flushed, stripped,
      as the chunk numbered `chunk_count` when the next paragraph would not fit. */
  method PackDocument(doc: Document, chunkSize: int) returns (chunks: seq<Chunk>)
    ensures chunks == ChunkDocument(doc, chunkSize)
  {
    chunks := [];
    var paragraphs := SplitOn(doc.content, PARAGRAPH_BREAK);
    var current := "";
    var chunkCount := 0;
    ghost var packing := Packing([], []);
    var i := 0;
    assert packing == PackAll(Kept(paragraphs[..0]), chunkSize) by {
      assert paragraphs[..0] == [];
    }
    while i < |paragraphs|
      invariant 0 <= i <= |paragraphs|
      invariant packing == PackAll(Kept(paragraphs[..i]), chunkSize)
      invariant current == Buffer(packing.open)
      invariant chunkCount == |packing.closed|
      invariant chunks == Emit(doc, packing.closed)
    {
      var para := Strip(paragraphs[i]);
      ghost var next := if para == "" then packing else PackStep(packing, para, chunkSize);
      assert next == PackAll(Kept(paragraphs[..i + 1]), chunkSize) by {
        KeptSnoc(paragraphs, i);
        if para != "" {
          PackAllSnoc(Kept(paragraphs[..i]), para, chunkSize);
        }
      }
      if para != "" {
        assert (|current| + |para| > chunkSize && current != "")
            == (packing.open != [] && |Join(PARAGRAPH_BREAK, packing.open + [para])| > chunkSize) by {
          OpenParagraphsClean(paragraphs, i, chunkSize);
          FlushTest(packing.open, para, chunkSize);
        }
        if |current| + |para| > chunkSize && current != "" {
          assert Strip(current) == ChunkText(packing.open) by {
            OpenParagraphsClean(paragraphs, i, chunkSize);
            StripBuffer(packing.open);
          }
          chunks := chunks + [Chunk(Strip(current), doc.metadata, chunkCount)];
          chunkCount := chunkCount + 1;
          current := para + PARAGRAPH_BREAK;
          assert chunks == Emit(doc, packing.closed + [packing.open]) by {
            EmitSnoc(doc, packing.closed, packing.open);
          }
          packing := Packing(packing.closed + [packing.open], [para]);
          assert current == Buffer(packing.open) by { BufferSingle(para); }
        } else {
          current := current + para + PARAGRAPH_BREAK;
          packing := Packing(packing.closed, packing.open + [para]);
          assert current == Buffer(packing.open) by {
            assert packing.open[..|packing.open| - 1] + [para] == packing.open;
          }
        }
      }
      assert packing == next;
      i := i + 1;
      assert packing == PackAll(Kept(paragraphs[..i]), chunkSize);
    }
    assert paragraphs[..i] == paragraphs;
    assert Strip(current) == ChunkText(packing.open) && (current == "" <==> packing.open == []) by {
      OpenParagraphsClean(paragraphs, i, chunkSize);
      StripBuffer(packing.open);
    }
    if Strip(current) != "" {
      assert packing.open != [] by {
        assert current != "";
      }
      chunks := chunks + [Chunk(Strip(current), doc.metadata, chunkCount)];
      assert chunks == Emit(doc, packing.closed + [packing.open]) by {
        EmitSnoc(doc, packing.closed, packing.open);
      }
    } else {
      assert packing.open == [] by {
        assert packing.open != [] ==> ChunkText(packing.open) != [] by {
          if packing.open != [] {
            OpenParagraphsClean(paragraphs, i, chunkSize);
            JoinStripped(packing.open);
          }
        }
      }
    }
  }

  class Loader {
    var documents: seq<Document>

    constructor ()
      ensures documents == []
    {
      documents := [];
    }

    /** `load_documents` over a listing of the data directory (`None` when it
        does not exist). A missing directory returns `[]` and keeps the
        documents; otherwise the loaded documents are appended to those already
        held, and all of them are returned. The loop gathers this call's
        documents and appends them once at the end, which leaves the same list
        as appending each in turn, since nothing raised in the loop escapes it. */
    method LoadDocuments(listing: Option<seq<DirEntry>>) returns (docs: seq<Document>)
      modifies this
      ensures listing.None? ==> docs == [] && documents == old(documents)
      ensures listing.Some? ==> documents == old(documents) + LoadAll(listing.value)
      ensures listing.Some? ==> docs == documents
    {
      if listing.None? {
        return [];
      }
      var entries := listing.value;
      var loaded: seq<Document> := [];
      var i := 0;
      while i < |entries|
        invariant 0 <= i <= |entries|
        invariant loaded == LoadAll(entries[..i])
      {
        var e := entries[i];
        ghost var next := LoadAll(entries[..i]) + LoadEntry(e);
        if EndsWith(e.name, ".txt") {
          match e.read
          case Some(content) =>
            loaded := loaded + [Document(e.name, content, ExtractMetadata(e.name, content))];
          case None =>
        }
        assert loaded == next;
        i := i + 1;
        assert LoadAll(entries[..i]) == next by {
          assert entries[..i][..i - 1] == entries[..i - 1];
        }
      }
      assert entries[..i] == entries;
      documents := documents + loaded;
      docs := documents;
    }

    /** `chunk_documents`: the greedy paragraph packer run over every held
        document in turn; the chunks of all documents, in order. */
    method ChunkDocuments(chunkSize: int) returns (chunks: seq<Chunk>)
      ensures chunks == ChunkAll(documents, chunkSize)
    {
      chunks := [];
      var d := 0;
      while d < |documents|
        invariant 0 <= d <= |documents|
        invariant chunks == ChunkAll(documents[..d], chunkSize)
      {
        var docChunks := PackDocument(documents[d], chunkSize);
        chunks := chunks + docChunks;
        ChunkAllSnoc(documents, d, chunkSize);
        d := d + 1;
      }
      assert documents[..d] == documents;
    }
  }
}
