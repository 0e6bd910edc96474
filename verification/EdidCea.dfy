/**
 * The CEA-861 part of the EDID parser: the nested walk over extension blocks and data blocks that looks for the
 * deep-colour depth of the HDMI vendor block, against a declarative reading of the same bytes and an encoder.
 */
module EdidCea {
  import opened DmTypes

  type Byte = b: nat | b < 256

  const BLOCK_SIZE: nat := 128
  const NUM_EXT_OFFSET: nat := 126
  const CEA_TAG: Byte := 2
  const DATA_BLOCK_START: nat := 4
  const VENDOR_SPECIFIC_TAG: nat := 3
  const HDMI_VSDB_MIN_LEN: nat := 6
  const HDMI_OUI: nat := 0x000C03

  /** Section 8.3.2 of HDMI 1.4: the highest of the flags DC_48bit, DC_36bit and DC_30bit decides. */
  function ExtractBpcFromFlags(flags: Byte): Byte {
    if (flags / 0x40) % 2 == 1 then 16
    else if (flags / 0x20) % 2 == 1 then 12
    else if (flags / 0x10) % 2 == 1 then 10
    else 8
  }

  // ---------------------------------------------------------------- the declarative reading

  /** A data block of the collection: a 3-bit tag and a payload (section 7.5 of CEA-861). */
  datatype Block = Block(tag: nat, payload: seq<Byte>)

  /** The depth that a block announces if it is an HDMI vendor block. */
  function HdmiDepth(b: Block): Option<Byte> {
    if b.tag == VENDOR_SPECIFIC_TAG && |b.payload| >= HDMI_VSDB_MIN_LEN && b.payload[..3] == [0x03, 0x0C, 0x00]
    then Some(ExtractBpcFromFlags(b.payload[5]))
    else None
  }

  function FirstHdmi(blocks: seq<Block>): Option<Byte> {
    if blocks == [] then None
    else if HdmiDepth(blocks[0]).Some? then HdmiDepth(blocks[0])
    else FirstHdmi(blocks[1..])
  }

  /** The block whose header is at pos; its payload stops at the end of the bytes. */
  function BlockAt(edid: seq<Byte>, pos: nat): Block
    requires pos < |edid|
  {
    var next := pos + 1 + edid[pos] % 32;
    Block(edid[pos] / 32, edid[pos + 1..if next < |edid| then next else |edid|])
  }

  /** The blocks whose headers lie in [pos, end). */
  function Decode(edid: seq<Byte>, pos: nat, end: nat): seq<Block>
    requires end <= |edid|
    decreases end - pos
  {
    if pos >= end then []
    else [BlockAt(edid, pos)] + Decode(edid, pos + 1 + edid[pos] % 32, end)
  }

  function ExtensionBlocks(edid: seq<Byte>, base: nat): seq<Block>
    requires base + BLOCK_SIZE <= |edid|
  {
    var dtdStart := edid[base + 2];
    if edid[base] != CEA_TAG || dtdStart < DATA_BLOCK_START || dtdStart >= BLOCK_SIZE then []
    else Decode(edid, base + DATA_BLOCK_START, base + dtdStart)
  }

  /** All data blocks of the extensions number ext, ext + 1, ..., n - 1. */
  function AllBlocks(edid: seq<Byte>, ext: nat, n: nat): seq<Block>
    requires BLOCK_SIZE + n * BLOCK_SIZE <= |edid|
    decreases n - ext
  {
    if ext >= n then []
    else ExtensionBlocks(edid, BLOCK_SIZE + ext * BLOCK_SIZE) + AllBlocks(edid, ext + 1, n)
  }

  /** The number of extensions that are looked at: none if the bytes do not hold all that are announced. */
  function UsableExtensions(edid: seq<Byte>, edidSize: nat): (n: nat)
    ensures n == 0 || (BLOCK_SIZE <= |edid| && n == edid[NUM_EXT_OFFSET])
    ensures |edid| >= BLOCK_SIZE ==> BLOCK_SIZE + n * BLOCK_SIZE <= |edid|
  {
    if |edid| < BLOCK_SIZE || edidSize < BLOCK_SIZE then 0
    else
      var n := edid[NUM_EXT_OFFSET];
      var total := BLOCK_SIZE + n * BLOCK_SIZE;
      if edidSize < total || |edid| < total then 0 else n
  }

  function CeaDepth(edid: seq<Byte>, edidSize: nat): Byte {
    if UsableExtensions(edid, edidSize) == 0 then 8
    else match FirstHdmi(AllBlocks(edid, 0, UsableExtensions(edid, edidSize)))
         case Some(depth) => depth
         case None => 8
  }

  lemma FirstHdmiOfNothing()
    ensures FirstHdmi([]) == None
  {}

  lemma DecodeAt(edid: seq<Byte>, pos: nat, end: nat)
    requires end <= |edid|
    ensures pos >= end ==> Decode(edid, pos, end) == []
    ensures pos < end ==>
              Decode(edid, pos, end) == [BlockAt(edid, pos)] + Decode(edid, pos + 1 + edid[pos] % 32, end)
  {}

  lemma FirstHdmiOfDecode(edid: seq<Byte>, pos: nat, end: nat)
    requires pos < end <= |edid|
    ensures FirstHdmi(Decode(edid, pos, end)) ==
            if HdmiDepth(BlockAt(edid, pos)).Some? then HdmiDepth(BlockAt(edid, pos))
            else FirstHdmi(Decode(edid, pos + 1 + edid[pos] % 32, end))
  {
    assert Decode(edid, pos, end)[1..] == Decode(edid, pos + 1 + edid[pos] % 32, end);
  }

  /** When the header at pos announces an HDMI vendor block, in terms of the bytes that the code reads. */
  lemma HdmiDepthOfBytes(edid: seq<Byte>, pos: nat)
    requires pos < |edid|
    ensures HdmiDepth(BlockAt(edid, pos)) ==
            if edid[pos] / 32 == VENDOR_SPECIFIC_TAG && pos + 6 < |edid| && edid[pos] % 32 >= HDMI_VSDB_MIN_LEN
               && edid[pos + 1..pos + 4] == [0x03, 0x0C, 0x00]
            then Some(ExtractBpcFromFlags(edid[pos + 6])) else None
  {
    var b := BlockAt(edid, pos);
    if |b.payload| >= 6 {
      assert b.payload[..3] == edid[pos + 1..pos + 4] && b.payload[5] == edid[pos + 6];
    }
  }

  lemma {:induction false} FirstHdmiConcat(a: seq<Block>, b: seq<Block>)
    ensures FirstHdmi(a + b) == if FirstHdmi(a).Some? then FirstHdmi(a) else FirstHdmi(b)
  {
    if a == [] {
      assert a + b == b;
    } else {
      assert (a + b)[1..] == a[1..] + b;
      FirstHdmiConcat(a[1..], b);
    }
  }

  // ---------------------------------------------------------------- the walks

  method TryParseHdmiVsdb(edid: seq<Byte>, pos: nat, len: nat, bpc: Byte) returns (found: bool, newBpc: Byte)
    requires pos + 6 < |edid|
    ensures found <==> len >= HDMI_VSDB_MIN_LEN && edid[pos + 1..pos + 4] == [0x03, 0x0C, 0x00]
    ensures newBpc == if found then ExtractBpcFromFlags(edid[pos + 6]) else bpc
  {
    if len < HDMI_VSDB_MIN_LEN {
      return false, bpc;
    }
    var low: int, middle: int, high: int := edid[pos + 1], edid[pos + 2], edid[pos + 3];
    var oui := low + middle * 0x100 + high * 0x1_0000;
    assert edid[pos + 1..pos + 4] == [edid[pos + 1], edid[pos + 2], edid[pos + 3]];
    if oui == HDMI_OUI {
      return true, ExtractBpcFromFlags(edid[pos + 6]);
    }
    return false, bpc;
  }

  method ParseCeaDataBlocks(edid: seq<Byte>, base: nat, dtdStart: Byte, bpc: Byte) returns (found: bool, newBpc: Byte)
    requires base + dtdStart <= |edid|
    ensures var depth := FirstHdmi(Decode(edid, base + DATA_BLOCK_START, base + dtdStart));
            found == depth.Some? && newBpc == if found then depth.value else bpc
  {
    hide *;
    ghost var all := FirstHdmi(Decode(edid, base + DATA_BLOCK_START, base + dtdStart));
    var pos := base + DATA_BLOCK_START;
    while pos < base + dtdStart
      invariant FirstHdmi(Decode(edid, pos, base + dtdStart)) == all
      decreases base + dtdStart - pos
    {
      var tag, len := edid[pos] / 32, edid[pos] % 32;
      FirstHdmiOfDecode(edid, pos, base + dtdStart);
      HdmiDepthOfBytes(edid, pos);
      if tag == VENDOR_SPECIFIC_TAG && pos + 6 < |edid| {
        var hdmi, depth := TryParseHdmiVsdb(edid, pos, len, bpc);
        if hdmi {
          return true, depth;
        }
      }
      pos := pos + 1 + len;
    }
    FirstHdmiOfNothing();
    DecodeAt(edid, pos, base + dtdStart);
    return false, bpc;
  }

  method ParseCeaExtensionBlock(edid: seq<Byte>, base: nat, bpc: Byte) returns (found: bool, newBpc: Byte)
    requires base + BLOCK_SIZE <= |edid|
    ensures var depth := FirstHdmi(ExtensionBlocks(edid, base));
            found == depth.Some? && newBpc == if found then depth.value else bpc
  {
    if edid[base] != CEA_TAG {
      return false, bpc;
    }
    var dtdStart := edid[base + 2];
    if dtdStart < DATA_BLOCK_START || dtdStart >= BLOCK_SIZE {
      return false, bpc;
    }
    found, newBpc := ParseCeaDataBlocks(edid, base, dtdStart, bpc);
  }

  method ParseBpcFromCEABlock(edid: seq<Byte>, edidSize: UInt32) returns (bpc: Byte)
    ensures bpc == CeaDepth(edid, edidSize)
  {
    hide ExtensionBlocks, FirstHdmi;
    bpc := 8;
    if |edid| < BLOCK_SIZE || edidSize < BLOCK_SIZE {
      return;
    }
    var numExt := edid[NUM_EXT_OFFSET];
    var totalSize := BLOCK_SIZE + numExt * BLOCK_SIZE;
    if numExt == 0 || edidSize < totalSize || |edid| < totalSize {
      return;
    }
    var ext := 0;
    while ext < numExt
      invariant ext <= numExt && bpc == 8
      invariant FirstHdmi(AllBlocks(edid, ext, numExt)) == FirstHdmi(AllBlocks(edid, 0, numExt))
    {
      var base := BLOCK_SIZE + ext * BLOCK_SIZE;
      FirstHdmiConcat(ExtensionBlocks(edid, base), AllBlocks(edid, ext + 1, numExt));
      var found, depth := ParseCeaExtensionBlock(edid, base, bpc);
      bpc := depth;
      if found {
        return;
      }
      ext := ext + 1;
    }
    FirstHdmiOfNothing();
  }

  // ---------------------------------------------------------------- the encoder

  predicate ValidBlock(b: Block) {
    b.tag < 8 && |b.payload| < 32
  }

  predicate ValidBlocks(blocks: seq<Block>) {
    forall i :: 0 <= i < |blocks| ==> ValidBlock(blocks[i])
  }

  function EncodeBlock(b: Block): seq<Byte>
    requires ValidBlock(b)
  {
    [b.tag * 32 + |b.payload|] + b.payload
  }

  function EncodeBlocks(blocks: seq<Block>): seq<Byte>
    requires ValidBlocks(blocks)
  {
    if blocks == [] then [] else EncodeBlock(blocks[0]) + EncodeBlocks(blocks[1..])
  }

  /** An extension is a CEA block with its data blocks from offset 4 up to the timing descriptors, or one that is
      skipped because of its tag or its descriptor offset. */
  datatype Extension =
    | Cea(revision: Byte, flags: Byte, blocks: seq<Block>, rest: seq<Byte>)
    | Skipped(bytes: seq<Byte>)

  predicate ValidExtension(x: Extension) {
    match x
    case Cea(_, _, blocks, rest) =>
      ValidBlocks(blocks) && rest != [] && 4 + |EncodeBlocks(blocks)| + |rest| == 128
    case Skipped(bytes) =>
      |bytes| == 128 && (bytes[0] != 2 || bytes[2] < 4 || bytes[2] >= 128)
  }

  function EncodeExtension(x: Extension): (s: seq<Byte>)
    requires ValidExtension(x)
    ensures |s| == 128
  {
    match x
    case Cea(revision, flags, blocks, rest) =>
      var body := EncodeBlocks(blocks);
      [2, revision, 4 + |body|, flags] + body + rest
    case Skipped(bytes) => bytes
  }

  predicate ValidExtensions(xs: seq<Extension>) {
    forall i :: 0 <= i < |xs| ==> ValidExtension(xs[i])
  }

  function EncodeExtensions(xs: seq<Extension>): (s: seq<Byte>)
    requires ValidExtensions(xs)
    ensures |s| == |xs| * 128
  {
    if xs == [] then [] else EncodeExtension(xs[0]) + EncodeExtensions(xs[1..])
  }

  function BlocksOf(xs: seq<Extension>): seq<Block> {
    if xs == [] then [] else (if xs[0].Cea? then xs[0].blocks else []) + BlocksOf(xs[1..])
  }

  lemma EncodeBlocksAt(blocks: seq<Block>)
    requires ValidBlocks(blocks)
    ensures blocks == [] ==> EncodeBlocks(blocks) == []
    ensures blocks != [] ==>
              && ValidBlock(blocks[0])
              && ValidBlocks(blocks[1..])
              && EncodeBlocks(blocks) == EncodeBlock(blocks[0]) + EncodeBlocks(blocks[1..])
              && |EncodeBlock(blocks[0])| == 1 + |blocks[0].payload|
  {}

  lemma {:induction false} DecodeUndoesEncode(before: seq<Byte>, blocks: seq<Block>, after: seq<Byte>)
    requires ValidBlocks(blocks)
    ensures Decode(before + EncodeBlocks(blocks) + after, |before|, |before| + |EncodeBlocks(blocks)|) == blocks
    decreases |blocks|
  {
    hide *;
    EncodeBlocksAt(blocks);
    var s := before + EncodeBlocks(blocks) + after;
    DecodeAt(s, |before|, |before| + |EncodeBlocks(blocks)|);
    if blocks != [] {
      var head, tail := EncodeBlock(blocks[0]), EncodeBlocks(blocks[1..]);
      assert s == before + head + (tail + after) == (before + head) + tail + after;
      BlockAtUndoesEncode(before, blocks[0], tail + after);
      DecodeUndoesEncode(before + head, blocks[1..], after);
      assert blocks == [blocks[0]] + blocks[1..];
    }
  }

  lemma BlockAtUndoesEncode(before: seq<Byte>, b: Block, after: seq<Byte>)
    requires ValidBlock(b)
    ensures var s := before + EncodeBlock(b) + after;
            BlockAt(s, |before|) == b && 1 + s[|before|] % 32 == |EncodeBlock(b)|
  {
    var s := before + EncodeBlock(b) + after;
    assert s[|before|] == b.tag * 32 + |b.payload|;
    assert s[|before| + 1..|before| + 1 + |b.payload|] == b.payload;
  }

  lemma ExtensionBlocksUndoEncode(before: seq<Byte>, x: Extension, after: seq<Byte>)
    requires ValidExtension(x)
    ensures ExtensionBlocks(before + EncodeExtension(x) + after, |before|) == if x.Cea? then x.blocks else []
  {
    hide Decode, EncodeBlocks, ValidBlocks, BlockAt;
    var s := before + EncodeExtension(x) + after;
    match x
    case Cea(_, _, _, _) =>
      var body := EncodeBlocks(x.blocks);
      var head := [CEA_TAG, x.revision, DATA_BLOCK_START + |body|, x.flags];
      assert s == (before + head) + body + (x.rest + after);
      assert s[|before|] == head[0] && s[|before| + 2] == head[2];
      DecodeUndoesEncode(before + head, x.blocks, x.rest + after);
    case Skipped(bytes) =>
      assert s[|before|] == bytes[0] && s[|before| + 2] == bytes[2];
  }

  lemma {:induction false} AllBlocksUndoEncode(before: seq<Byte>, xs: seq<Extension>, after: seq<Byte>, ext: nat)
    requires ValidExtensions(xs) && |before| == BLOCK_SIZE + ext * BLOCK_SIZE
    ensures AllBlocks(before + EncodeExtensions(xs) + after, ext, ext + |xs|) == BlocksOf(xs)
    decreases |xs|
  {
    hide ExtensionBlocks, EncodeExtension, ValidExtension;
    if xs != [] {
      ExtensionBlocksUndoEncode(before, xs[0], EncodeExtensions(xs[1..]) + after);
      AllBlocksUndoEncode(before + EncodeExtension(xs[0]), xs[1..], after, ext + 1);
      assert before + EncodeExtensions(xs) + after
          == before + EncodeExtension(xs[0]) + EncodeExtensions(xs[1..]) + after
          == before + EncodeExtension(xs[0]) + (EncodeExtensions(xs[1..]) + after);
    }
  }

  /** The walk over an encoded image, whatever follows it, reads back the encoded blocks: the depth is that of the first
      HDMI vendor block in the order of the extensions, or 8. */
  lemma CeaDepthOfImage(baseBlock: seq<Byte>, xs: seq<Extension>, after: seq<Byte>, edidSize: nat)
    requires |baseBlock| == 128 && ValidExtensions(xs) && baseBlock[126] == |xs| && edidSize >= 128 + |xs| * 128
    ensures var edid := baseBlock + EncodeExtensions(xs) + after;
            && AllBlocks(edid, 0, |xs|) == BlocksOf(xs)
            && CeaDepth(edid, edidSize) == (match FirstHdmi(BlocksOf(xs)) case Some(depth) => depth case None => 8)
  {
    hide AllBlocks;
    AllBlocksUndoEncode(baseBlock, xs, after, 0);
    assert (baseBlock + EncodeExtensions(xs) + after)[126] == baseBlock[126];
    if xs == [] {
      FirstHdmiOfNothing();
    }
  }

  // ---------------------------------------------------------------- the depth in the image

  /** The flags byte of section 8.3.2 of HDMI 1.4, with the three deep colour bits and all other bits. */
  function DeepColorFlags(dc48: bool, dc36: bool, dc30: bool, high: nat, low: nat): Byte
    requires high < 2 && low < 16
  {
    high * 128 + (if dc48 then 64 else 0) + (if dc36 then 32 else 0) + (if dc30 then 16 else 0) + low
  }

  /** The largest depth that is flagged; 8 needs no flag. */
  predicate IsLargestFlagged(depth: nat, dc48: bool, dc36: bool, dc30: bool) {
    && (depth == 8 || (depth == 10 && dc30) || (depth == 12 && dc36) || (depth == 16 && dc48))
    && (dc30 ==> 10 <= depth) && (dc36 ==> 12 <= depth) && (dc48 ==> 16 <= depth)
  }

  lemma DepthOfFlags(dc48: bool, dc36: bool, dc30: bool, high: nat, low: nat)
    requires high < 2 && low < 16
    ensures IsLargestFlagged(ExtractBpcFromFlags(DeepColorFlags(dc48, dc36, dc30, high, low)), dc48, dc36, dc30)
  {}

  /** An HDMI vendor block: tag 3, the registration 0x000C03 from its low byte on, and at least the flags byte. */
  predicate IsHdmiBlock(b: Block) {
    b.tag == 3 && |b.payload| >= 6 && b.payload[0] == 0x03 && b.payload[1] == 0x0C && b.payload[2] == 0x00
  }

  lemma HdmiBlockIsFound(b: Block)
    ensures HdmiDepth(b).Some? <==> IsHdmiBlock(b)
    ensures IsHdmiBlock(b) ==> HdmiDepth(b) == Some(ExtractBpcFromFlags(b.payload[5]))
  {
    if |b.payload| >= 6 {
      assert b.payload[..3] == [b.payload[0], b.payload[1], b.payload[2]];
    }
  }

  lemma {:induction false} FirstHdmiAt(blocks: seq<Block>, k: nat)
    requires k <= |blocks| && forall i :: 0 <= i < k ==> !IsHdmiBlock(blocks[i])
    requires k < |blocks| ==> IsHdmiBlock(blocks[k])
    ensures FirstHdmi(blocks) ==
            if k < |blocks| then Some(ExtractBpcFromFlags(blocks[k].payload[5])) else None
  {
    hide IsHdmiBlock, HdmiDepth;
    if blocks != [] {
      HdmiBlockIsFound(blocks[0]);
      if k > 0 {
        FirstHdmiAt(blocks[1..], k - 1);
      }
    }
  }

  /** The depth of an image whose first HDMI vendor block has these flags is the largest that is flagged. */
  lemma DepthOfImage(baseBlock: seq<Byte>, xs: seq<Extension>, after: seq<Byte>, edidSize: nat, k: nat,
                     dc48: bool, dc36: bool, dc30: bool, high: nat, low: nat)
    requires |baseBlock| == 128 && ValidExtensions(xs) && baseBlock[126] == |xs| && edidSize >= 128 + |xs| * 128
    requires k < |BlocksOf(xs)| && IsHdmiBlock(BlocksOf(xs)[k])
    requires forall i :: 0 <= i < k ==> !IsHdmiBlock(BlocksOf(xs)[i])
    requires high < 2 && low < 16 && BlocksOf(xs)[k].payload[5] == DeepColorFlags(dc48, dc36, dc30, high, low)
    ensures IsLargestFlagged(CeaDepth(baseBlock + EncodeExtensions(xs) + after, edidSize), dc48, dc36, dc30)
  {
    hide CeaDepth, ExtractBpcFromFlags, DeepColorFlags, IsLargestFlagged, EncodeExtensions;
    CeaDepthOfImage(baseBlock, xs, after, edidSize);
    FirstHdmiAt(BlocksOf(xs), k);
    DepthOfFlags(dc48, dc36, dc30, high, low);
  }

  /** The depth is 8 if no data block of the image is an HDMI vendor block, or if bytes are missing. */
  lemma DefaultDepth(baseBlock: seq<Byte>, xs: seq<Extension>, after: seq<Byte>, edidSize: nat)
    requires |baseBlock| == 128 && ValidExtensions(xs) && baseBlock[126] == |xs|
    requires forall i :: 0 <= i < |BlocksOf(xs)| ==> !IsHdmiBlock(BlocksOf(xs)[i])
    ensures CeaDepth(baseBlock + EncodeExtensions(xs) + after, edidSize) == 8
    ensures forall edid :: |edid| < 128 || |edid| < 128 + edid[126] * 128 || edidSize < 128 + edid[126] * 128 ==>
              CeaDepth(edid, edidSize) == 8
  {
    hide BlocksOf, EncodeExtensions, FirstHdmi, AllBlocks;
    FirstHdmiAt(BlocksOf(xs), |BlocksOf(xs)|);
    var edid := baseBlock + EncodeExtensions(xs) + after;
    assert edid[126] == baseBlock[126];
    if edidSize >= 128 + |xs| * 128 {
      CeaDepthOfImage(baseBlock, xs, after, edidSize);
    }
  }

  /** What FirstHdmi finds: the depth of one HDMI block, with none before it. */
  lemma {:induction false} FirstHdmiIsFirst(blocks: seq<Block>)
    ensures match FirstHdmi(blocks)
            case None => forall i :: 0 <= i < |blocks| ==> HdmiDepth(blocks[i]).None?
            case Some(depth) => exists k :: 0 <= k < |blocks| && HdmiDepth(blocks[k]) == Some(depth)
                                  && forall i :: 0 <= i < k ==> HdmiDepth(blocks[i]).None?
  {
    if blocks != [] && HdmiDepth(blocks[0]).None? {
      FirstHdmiIsFirst(blocks[1..]);
      if FirstHdmi(blocks).Some? {
        var k :| 0 <= k < |blocks| - 1 && HdmiDepth(blocks[1..][k]) == FirstHdmi(blocks)
                 && forall i :: 0 <= i < k ==> HdmiDepth(blocks[1..][i]).None?;
        assert forall i :: 0 < i < k + 1 ==> blocks[i] == blocks[1..][i - 1];
        assert HdmiDepth(blocks[k + 1]) == FirstHdmi(blocks);
      }
    }
  }
}
