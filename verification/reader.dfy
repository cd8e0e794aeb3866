// `DeclarationReader`: the API file is a sequence of comment blocks, each
// made of the comment start, tag lines behind a three-character indent, the
// comment end, and then the signature line the block documents.
module Reader {
  import opened Wrappers
  import opened Ir
  import opened Hacks
  import opened Declarations

  const COMMENT_START := "/**"
  const COMMENT_END := " */"
  const INDENT := " * "

  /** Every line without its first three characters. */
  function Unindent(lines: seq<string>): (r: seq<string>)
    requires forall i :: 0 <= i < |lines| ==> |lines[i]| >= 3
    ensures |r| == |lines|
    ensures forall i :: 0 <= i < |lines| ==> r[i] == lines[i][3..]
  {
    seq(|lines|, i requires 0 <= i < |lines| => lines[i][3..])
  }

  /** The text of a block: tag lines behind the indent, the end marker and
      the signature. */
  function Block(tags: seq<string>, signature: string): (r: seq<string>)
    ensures |r| == |tags| + 3
  {
    [COMMENT_START] + seq(|tags|, i requires 0 <= i < |tags| => INDENT + tags[i]) + [COMMENT_END, signature]
  }

  /** The loop of `read` after the comment start: tag lines are collected
      (each must have at least the three indent characters, where
      `substring(3)` throws otherwise) until the comment end; the line after it is
      the signature. Running out of lines is the iterator's
      `NoSuchElementException`. Returns the tag lines, the signature and the
      lines left over. */
  function ReadTags(lines: seq<string>, acc: seq<string>): (r: Result<(seq<string>, string, seq<string>)>)
    ensures r.Ok? ==> TagsRead(lines, acc, r.value)
    decreases |lines|
  {
    if |lines| == 0 then Err("NoSuchElementException")
    else if lines[0] == COMMENT_END then
      if |lines| == 1 then Err("NoSuchElementException")
      else
        assert lines[..0] == [];
        Ok((acc, lines[1], lines[2..]))
    else if |lines[0]| < 3 then Err("StringIndexOutOfBoundsException: begin 3")
    else
      var r := ReadTags(lines[1..], acc + [lines[0][3..]]);
      if r.Err? then r
      else
        TagsReadStep(lines, acc, r.value);
        r
  }

  /** `v` is what reading tag lines from `lines` after `acc` gives: the
      first comment end is at `k`, every line before it has the indent and
      is collected without it, the line after it is the signature, and
      the rest is left over. */
  predicate TagsRead(lines: seq<string>, acc: seq<string>, v: (seq<string>, string, seq<string>))
  {
    var k := |lines| - |v.2| - 2;
    0 <= k && lines[k] == COMMENT_END && v.1 == lines[k + 1] && v.2 == lines[k + 2..] &&
    (forall i :: 0 <= i < k ==> lines[i] != COMMENT_END && |lines[i]| >= 3) &&
    v.0 == acc + Unindent(lines[..k])
  }

  lemma TagsReadStep(lines: seq<string>, acc: seq<string>, v: (seq<string>, string, seq<string>))
    requires |lines| > 0 && lines[0] != COMMENT_END && |lines[0]| >= 3
    requires TagsRead(lines[1..], acc + [lines[0][3..]], v)
    ensures TagsRead(lines, acc, v)
  {
    var k := |lines| - |v.2| - 2;
    var tail := lines[1..];
    assert lines[k] == COMMENT_END && v.1 == lines[k + 1] && v.2 == lines[k + 2..] by {
      assert lines[k] == tail[k - 1] && lines[k + 1] == tail[k] && lines[k + 2..] == tail[k + 1..];
    }
    assert forall i :: 0 <= i < k ==> lines[i] != COMMENT_END && |lines[i]| >= 3 by {
      assert forall i :: 0 < i < k ==> lines[i] == tail[i - 1];
    }
    assert v.0 == acc + Unindent(lines[..k]) by {
      assert lines[..k] == [lines[0]] + tail[..k - 1];
      UnindentCons(lines[0], tail[..k - 1]);
      RegroupTags(acc, lines[0][3..], Unindent(tail[..k - 1]));
    }
  }

  lemma UnindentCons(line: string, lines: seq<string>)
    requires |line| >= 3 && forall i :: 0 <= i < |lines| ==> |lines[i]| >= 3
    ensures Unindent([line] + lines) == [line[3..]] + Unindent(lines)
  {
  }

  lemma RegroupTags(acc: seq<string>, x: string, ys: seq<string>)
    ensures acc + [x] + ys == acc + ([x] + ys)
  {
  }

  /** The block at the head of `lines`: its tag lines, its signature and
      the lines after it. */
  function ReadBlock(lines: seq<string>): (r: Result<(seq<string>, string, seq<string>)>)
    ensures r.Ok? ==> |lines| >= 3 && lines[0] == COMMENT_START && |r.value.2| <= |lines| - 3
  {
    if |lines| == 0 then Err("NoSuchElementException")
    else if lines[0] != COMMENT_START then Err("Invalid comment start!")
    else ReadTags(lines[1..], [])
  }

  /** `DeclarationReader.read`: one block and its declaration, and the lines
      after it. */
  function ReadDeclaration(h: HackTables, lines: seq<string>): (r: Result<(Declaration, seq<string>)>)
    ensures r.Ok? ==> |lines| >= 3 && lines[0] == COMMENT_START && |r.value.1| <= |lines| - 3
  {
    var block := ReadBlock(lines);
    if block.Err? then Err(block.msg)
    else
      var d := ParseDeclaration(h, block.value.1, block.value.0);
      if d.Err? then Err(d.msg) else Ok((d.value, block.value.2))
  }

  /** The loop of `generateKotlinWrappers`: blocks are read while lines
      remain. */
  function ReadAll(h: HackTables, lines: seq<string>): (r: Result<seq<Declaration>>)
    ensures |lines| == 0 ==> r == Ok([])
    ensures r.Ok? ==> |r.value| <= |lines| / 3
    decreases |lines|
  {
    if |lines| == 0 then Ok([])
    else
      var first := ReadDeclaration(h, lines);
      if first.Err? then Err(first.msg)
      else
        var rest := ReadAll(h, first.value.1);
        if rest.Err? then rest else Ok([first.value.0] + rest.value)
  }

  /** The tag lines of a written block are read back as written, and the
      lines after the block are left over. */
  lemma {:induction false} ReadTagsRoundTrip(tags: seq<string>, signature: string, rest: seq<string>, acc: seq<string>)
    ensures ReadTags(Block(tags, signature)[1..] + rest, acc) == Ok((acc + tags, signature, rest))
    decreases |tags|
  {
    var lines := Block(tags, signature)[1..] + rest;
    if |tags| == 0 {
      assert lines == [COMMENT_END, signature] + rest;
      assert lines[2..] == rest;
    } else {
      assert lines[0] == INDENT + tags[0];
      assert lines[0][2] == ' ' && COMMENT_END[2] == '/';
      assert lines[0][3..] == tags[0];
      assert lines[1..] == Block(tags[1..], signature)[1..] + rest;
      ReadTagsRoundTrip(tags[1..], signature, rest, acc + [tags[0]]);
      assert acc + [tags[0]] + tags[1..] == acc + tags;
    }
  }

  /** A written block is read back: its tag lines, its signature, and the
      lines after it. */
  lemma ReadBlockRoundTrip(tags: seq<string>, signature: string, rest: seq<string>)
    ensures ReadBlock(Block(tags, signature) + rest) == Ok((tags, signature, rest))
  {
    var lines := Block(tags, signature) + rest;
    assert lines[0] == COMMENT_START;
    assert lines[1..] == Block(tags, signature)[1..] + rest;
    ReadTagsRoundTrip(tags, signature, rest, []);
    assert [] + tags == tags;
  }

  /** Reading a written block gives the declaration its tag lines and
      signature parse to. */
  lemma ReadDeclarationRoundTrip(h: HackTables, tags: seq<string>, signature: string, rest: seq<string>)
    requires ParseDeclaration(h, signature, tags).Ok?
    ensures ReadDeclaration(h, Block(tags, signature) + rest) == Ok((ParseDeclaration(h, signature, tags).value, rest))
  {
    ReadBlockRoundTrip(tags, signature, rest);
  }
}
