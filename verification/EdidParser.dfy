/** The base block of the EDID parser: text descriptors, vendor data, colour depth and the top-level entry. */
module EdidParser {
  import opened DmTypes
  import opened EdidCea

  /** Text is kept as bytes; the C++ strings are byte strings. */
  type Text = seq<Byte>

  const EDID_MAX_SIZE: nat := 512
  const MAGIC: seq<Byte> := [0, 0xFF, 0xFF, 0xFF, 0xFF, 0xFF, 0xFF, 0]
  const NEWLINE: Byte := 0x0A
  const SPACE: Byte := 0x20
  const TEXT_SIZE: nat := 13
  const PRODUCT_NAME_TAG: Byte := 0xFC
  const ASCII_TEXT_TAG: Byte := 0xFE
  const SERIAL_NUMBER_TAG: Byte := 0xFF

  datatype BaseEdid = BaseEdid(
    modelName: Text, manufacturerName: Text, displayProductName: Text, asciiText: Text, serialText: Text,
    minor: Byte, week: Byte, year: nat, productCode: nat, serialNumber: UInt32,
    hScreenSize: Int32, vScreenSize: Int32, bitsPerPrimaryColor: Byte)

  // ---------------------------------------------------------------- text descriptors

  predicate Printable(b: Byte) {
    0x20 <= b <= 0x7E
  }

  predicate AllPrintable(t: Text) {
    forall i :: 0 <= i < |t| ==> Printable(t[i])
  }

  /** The position of the first newline, or the length. */
  function LineEnd(t: Text): (n: nat)
    ensures n <= |t|
    ensures n < |t| ==> t[n] == NEWLINE
    ensures forall i :: 0 <= i < n ==> t[i] != NEWLINE
  {
    if t == [] || t[0] == NEWLINE then 0 else 1 + LineEnd(t[1..])
  }

  function ParseEdidText(bytes: Text): (t: Text)
    ensures AllPrintable(t) && t <= bytes
  {
    var line := bytes[..LineEnd(bytes)];
    if AllPrintable(line) then line else []
  }

  /** How section 3.10.3 of VESA E-EDID stores a text: ended by a newline if short, then padded with spaces. */
  function StoreText(t: Text): (bytes: Text)
    requires |t| <= TEXT_SIZE
    ensures |bytes| == TEXT_SIZE
  {
    if |t| == TEXT_SIZE then t else t + [NEWLINE] + seq(TEXT_SIZE - 1 - |t|, _ => SPACE)
  }

  lemma {:induction false} LineEndIsFirst(t: Text, n: nat)
    requires n <= |t| && (n < |t| ==> t[n] == NEWLINE)
    requires forall i :: 0 <= i < n ==> t[i] != NEWLINE
    ensures LineEnd(t) == n
  {
    if n > 0 {
      LineEndIsFirst(t[1..], n - 1);
    }
  }

  /** Printable text of up to 13 bytes that is stored as the standard says is read back unchanged, and only such
      text is: whatever else is stored is read as something else, and as nothing if it is a single line. */
  lemma TextRoundTrip(t: Text)
    requires |t| <= TEXT_SIZE
    ensures ParseEdidText(StoreText(t)) == t <==> AllPrintable(t)
    ensures NEWLINE !in t && !AllPrintable(t) ==> ParseEdidText(StoreText(t)) == []
  {
    var bytes := StoreText(t);
    if NEWLINE !in t {
      LineEndIsFirst(bytes, |t|);
      assert bytes[..|t|] == t;
    }
  }

  // ---------------------------------------------------------------- the four descriptors

  /** Descriptor k starts at 0x36 + 18 k; its tag is byte 3 and its text bytes 5 to 17. */
  function DescriptorTag(edid: seq<Byte>, k: nat): Byte
    requires k < 4 && BLOCK_SIZE <= |edid|
  {
    edid[0x36 + 0x12 * k + 3]
  }

  function DescriptorText(edid: seq<Byte>, k: nat): Text
    requires k < 4 && BLOCK_SIZE <= |edid|
  {
    ParseEdidText(edid[0x36 + 0x12 * k + 5..0x36 + 0x12 * k + 18])
  }

  /** The text of the last of the first n descriptors with this tag, or the old value. */
  function LastText(edid: seq<Byte>, tag: Byte, n: nat, old_: Text): Text
    requires n <= 4 && BLOCK_SIZE <= |edid|
  {
    if n == 0 then old_
    else if DescriptorTag(edid, n - 1) == tag then DescriptorText(edid, n - 1)
    else LastText(edid, tag, n - 1, old_)
  }

  /** k is the last of the first n descriptors with the tag, or -1 if there is none. */
  predicate IsLastWithTag(edid: seq<Byte>, tag: Byte, n: nat, k: int)
    requires n <= 4 && BLOCK_SIZE <= |edid|
  {
    && -1 <= k < n
    && (k >= 0 ==> DescriptorTag(edid, k) == tag)
    && forall i :: k < i < n ==> DescriptorTag(edid, i) != tag
  }

  lemma {:induction false} LastTextIsLast(edid: seq<Byte>, tag: Byte, n: nat, old_: Text, k: int)
    requires n <= 4 && BLOCK_SIZE <= |edid| && IsLastWithTag(edid, tag, n, k)
    ensures LastText(edid, tag, n, old_) == if k < 0 then old_ else DescriptorText(edid, k)
  {
    hide ParseEdidText;
    if n > 0 && k < n - 1 {
      LastTextIsLast(edid, tag, n - 1, old_, k);
    }
  }

  function FirstNonEmpty(a: Text, b: Text, c: Text): Text {
    if a != [] then a else if b != [] then b else c
  }

  function WithTexts(r: BaseEdid, edid: seq<Byte>): BaseEdid
    requires BLOCK_SIZE <= |edid|
  {
    var name := LastText(edid, PRODUCT_NAME_TAG, 4, r.displayProductName);
    var ascii := LastText(edid, ASCII_TEXT_TAG, 4, r.asciiText);
    var serial := LastText(edid, SERIAL_NUMBER_TAG, 4, r.serialText);
    r.(displayProductName := name, asciiText := ascii, serialText := serial,
       modelName := FirstNonEmpty(name, serial, ascii))
  }

  // ---------------------------------------------------------------- colour depth and vendor data

  /** Bit 7 of the video input byte says digital, bits 4 to 6 hold the depth code (section 3.6.1 of E-EDID). */
  function Bpc(edid: seq<Byte>, edidSize: nat): Byte
    requires BLOCK_SIZE <= |edid|
  {
    var input, minor := edid[0x14], edid[0x13];
    if input >= 0x80 && minor >= 4 then
      var code := input / 16 % 8;
      if code == 0 || code == 7 then 0 else code * 2 + 4
    else if minor == 3 then CeaDepth(edid, edidSize)
    else 0
  }

  lemma {:induction false} FirstHdmiDepths(blocks: seq<Block>)
    ensures FirstHdmi(blocks).Some? ==> FirstHdmi(blocks).value in {8, 10, 12, 16}
  {
    if blocks != [] {
      FirstHdmiDepths(blocks[1..]);
    }
  }

  lemma BpcIsADepth(edid: seq<Byte>, edidSize: nat)
    requires BLOCK_SIZE <= |edid|
    ensures Bpc(edid, edidSize) in {0, 6, 8, 10, 12, 14, 16}
  {
    var n := UsableExtensions(edid, edidSize);
    FirstHdmiDepths(AllBlocks(edid, 0, n));
  }

  /** A digital E-EDID 1.4 input byte with depth code (depth - 4) / 2 is read as that depth. */
  lemma BpcUndoesEncode(edid: seq<Byte>, edidSize: nat, depth: nat, interface: nat)
    requires BLOCK_SIZE <= |edid| && edid[0x13] >= 4
    requires depth in {6, 8, 10, 12, 14, 16} && interface < 16
    requires edid[0x14] == 0x80 + (depth - 4) / 2 * 16 + interface
    ensures Bpc(edid, edidSize) == depth
  {}

  /** Letter number i (0, 1, 2) of a packed manufacturer id: five bits each, 'A' is 1. */
  function GetLetter(id: nat, i: nat): Byte
    requires i < 3
  {
    var code := (match i case 0 => id / 1024 case 1 => id / 32 case _ => id) % 32;
    if code == 0 || code > 26 then 0 else 64 + code
  }

  function ManufacturerName(id: nat): Text {
    [GetLetter(id, 0), GetLetter(id, 1), GetLetter(id, 2)]
  }

  /** Section 3.4.1 of E-EDID: three upper-case letters in fifteen bits. */
  function PackLetters(name: Text): nat
    requires |name| == 3 && forall i :: 0 <= i < 3 ==> 65 <= name[i] <= 90
  {
    var a: int, b: int, c: int := name[0] - 64, name[1] - 64, name[2] - 64;
    a * 1024 + b * 32 + c
  }

  lemma ManufacturerNameUndoesPack(name: Text, high: nat)
    requires |name| == 3 && forall i :: 0 <= i < 3 ==> 65 <= name[i] <= 90
    requires high < 2
    ensures ManufacturerName(PackLetters(name) + high * 0x8000) == name
  {
    var id := PackLetters(name) + high * 0x8000;
    FiveBitFields(name[0] - 64, name[1] - 64, name[2] - 64, high);
    assert ManufacturerName(id) == [name[0], name[1], name[2]];
  }

  lemma FiveBitFields(a: nat, b: nat, c: nat, high: nat)
    requires a < 32 && b < 32 && c < 32
    ensures var id := a * 1024 + b * 32 + c + high * 0x8000;
            id / 1024 % 32 == a && id / 32 % 32 == b && id % 32 == c
  {
    var q := a * 32 + b + high * 1024;
    var id := q * 32 + c;
    DivideBy32(q, c);
    DivideBy32(a + high * 32, b);
    DivideBy32(high, a);
    assert id / 1024 == id / 32 / 32;
  }

  lemma DivideBy32(q: nat, r: nat)
    requires r < 32
    ensures (q * 32 + r) / 32 == q && (q * 32 + r) % 32 == r
  {}

  function LittleEndian(bytes: seq<Byte>): (v: nat) {
    if bytes == [] then 0 else (bytes[0] as int) + 256 * LittleEndian(bytes[1..])
  }

  function EncodeLittleEndian(v: nat, n: nat): (bytes: seq<Byte>)
    ensures |bytes| == n
  {
    if n == 0 then [] else [v % 256] + EncodeLittleEndian(v / 256, n - 1)
  }

  function Pow256(n: nat): (p: nat)
    ensures p > 0
  {
    if n == 0 then 1 else 256 * Pow256(n - 1)
  }

  lemma {:induction false} LittleEndianUndoesEncode(v: nat, n: nat)
    requires v < Pow256(n)
    ensures LittleEndian(EncodeLittleEndian(v, n)) == v
  {
    if n > 0 {
      LittleEndianUndoesEncode(v / 256, n - 1);
    }
  }

  function ParseRecord(r: BaseEdid, edid: seq<Byte>, edidSize: nat): BaseEdid
    requires BLOCK_SIZE <= |edid|
  {
    LittleEndianOfFour(edid[0x0C..0x10]);
    var sized := edid[0x15] != 0 && edid[0x16] != 0;
    WithTexts(
      r.(minor := edid[0x13],
         manufacturerName := ManufacturerName((edid[8] as int) * 256 + edid[9]),
         productCode := LittleEndian(edid[0x0A..0x0C]),
         serialNumber := LittleEndian(edid[0x0C..0x10]),
         week := edid[0x10],
         year := (edid[0x11] as int) + 1990,
         bitsPerPrimaryColor := Bpc(edid, edidSize),
         hScreenSize := if sized then edid[0x15] else r.hScreenSize,
         vScreenSize := if sized then edid[0x16] else r.vScreenSize),
      edid)
  }

  /** Vendor data that is stored as section 3.4 of E-EDID says is read back. */
  lemma VendorDataRoundTrip(r: BaseEdid, edid: seq<Byte>, edidSize: nat, name: Text, product: nat, serial: nat)
    requires BLOCK_SIZE <= |edid|
    requires |name| == 3 && forall i :: 0 <= i < 3 ==> 65 <= name[i] <= 90
    requires product < 0x1_0000 && serial < 0x1_0000_0000
    requires (edid[8] as int) * 256 + edid[9] == PackLetters(name)
    requires edid[0x0A..0x0C] == EncodeLittleEndian(product, 2) && edid[0x0C..0x10] == EncodeLittleEndian(serial, 4)
    ensures var r' := ParseRecord(r, edid, edidSize);
            r'.manufacturerName == name && r'.productCode == product && r'.serialNumber == serial
  {
    hide Bpc, LastText, LittleEndian, ManufacturerName, EncodeLittleEndian;
    ManufacturerNameUndoesPack(name, 0);
    assert Pow256(2) == 0x1_0000 && Pow256(4) == 0x1_0000_0000 by {
      assert Pow256(4) == 256 * (256 * Pow256(2));
    }
    LittleEndianUndoesEncode(product, 2);
    LittleEndianUndoesEncode(serial, 4);
  }

  // ---------------------------------------------------------------- the base block as a whole

  /** An 18-byte descriptor: five bytes, of which the fourth is the tag, and thirteen bytes of text. */
  datatype Descriptor = Descriptor(head: seq<Byte>, body: seq<Byte>)

  /** The base block of section 3 of E-EDID; `middle` are its bytes 0x17 to 0x35. */
  datatype Image = Image(
    name: Text, product: nat, serial: nat, week: Byte, year: nat, version: Byte, minor: Byte, input: Byte,
    hSize: Byte, vSize: Byte, middle: seq<Byte>, descriptors: seq<Descriptor>, extensions: Byte, checksum: Byte)

  predicate ValidImage(x: Image) {
    && |x.name| == 3 && (forall i :: 0 <= i < 3 ==> 65 <= x.name[i] <= 90)
    && x.product < 0x1_0000 && x.serial < 0x1_0000_0000
    && 1990 <= x.year < 2246 && |x.middle| == 31 && |x.descriptors| == 4
    && forall k :: 0 <= k < 4 ==> |x.descriptors[k].head| == 5 && |x.descriptors[k].body| == 13
  }

  function EncodeVendor(x: Image): (s: seq<Byte>)
    requires ValidImage(x)
    ensures |s| == 23
  {
    [0, 0xFF, 0xFF, 0xFF, 0xFF, 0xFF, 0xFF, 0] +
    [PackLetters(x.name) / 256, PackLetters(x.name) % 256] +
    EncodeLittleEndian(x.product, 2) + EncodeLittleEndian(x.serial, 4) +
    [x.week, x.year - 1990, x.version, x.minor, x.input, x.hSize, x.vSize]
  }

  function EncodeDescriptors(x: Image): (s: seq<Byte>)
    requires ValidImage(x)
    ensures |s| == 72
  {
    x.descriptors[0].head + x.descriptors[0].body + x.descriptors[1].head + x.descriptors[1].body +
    x.descriptors[2].head + x.descriptors[2].body + x.descriptors[3].head + x.descriptors[3].body
  }

  function EncodeImage(x: Image): (s: seq<Byte>)
    requires ValidImage(x)
    ensures |s| == 128
  {
    EncodeVendor(x) + x.middle + EncodeDescriptors(x) + [x.extensions, x.checksum]
  }

  lemma VendorBytes(x: Image, after: seq<Byte>)
    requires ValidImage(x)
    ensures var edid := EncodeImage(x) + after;
            && MAGIC <= edid
            && (edid[8] as int) * 256 + edid[9] == PackLetters(x.name)
            && edid[0x0A..0x0C] == EncodeLittleEndian(x.product, 2)
            && edid[0x0C..0x10] == EncodeLittleEndian(x.serial, 4)
            && edid[0x10..0x17] == [x.week, x.year - 1990, x.version, x.minor, x.input, x.hSize, x.vSize]
            && edid[126] == x.extensions
  {
    hide EncodeLittleEndian, PackLetters, EncodeDescriptors;
    var edid, vendor := EncodeImage(x) + after, EncodeVendor(x);
    assert edid[..23] == vendor;
    assert edid[0x0A..0x0C] == vendor[0x0A..0x0C] && edid[0x0C..0x10] == vendor[0x0C..0x10];
    assert edid[0x10..0x17] == vendor[0x10..0x17];
    assert edid[8] == vendor[8] && edid[9] == vendor[9];
  }

  lemma DescriptorBytes(x: Image, after: seq<Byte>, k: nat)
    requires ValidImage(x) && k < 4
    ensures var edid := EncodeImage(x) + after;
            && DescriptorTag(edid, k) == x.descriptors[k].head[3]
            && DescriptorText(edid, k) == ParseEdidText(x.descriptors[k].body)
  {
    hide ParseEdidText, EncodeVendor;
    var edid, all := EncodeImage(x) + after, EncodeDescriptors(x);
    assert edid[54..126] == all;
    assert edid[54 + 18 * k + 3] == all[18 * k + 3];
    assert edid[59 + 18 * k..72 + 18 * k] == all[18 * k + 5..18 * k + 18];
    assert all[18 * k + 5..18 * k + 18] == x.descriptors[k].body;
  }
  /** The numbers of an encoded base block are read back; a screen size is taken only if both sides are given. */
  lemma NumbersOfImage(r: BaseEdid, x: Image, after: seq<Byte>, edidSize: nat)
    requires ValidImage(x)
    ensures var r' := ParseRecord(r, EncodeImage(x) + after, edidSize);
            && r'.manufacturerName == x.name && r'.productCode == x.product && r'.serialNumber == x.serial
            && r'.week == x.week && r'.year == x.year && r'.minor == x.minor
            && r'.hScreenSize == (if x.hSize != 0 && x.vSize != 0 then x.hSize else r.hScreenSize)
            && r'.vScreenSize == (if x.hSize != 0 && x.vSize != 0 then x.vSize else r.vScreenSize)
  {
    hide EncodeImage, PackLetters, Bpc, LastText, LittleEndian, ManufacturerName, EncodeLittleEndian;
    var edid := EncodeImage(x) + after;
    VendorBytes(x, after);
    VendorDataRoundTrip(r, edid, edidSize, x.name, x.product, x.serial);
    var bytes := edid[0x10..0x17];
    assert edid[0x10] == bytes[0] && edid[0x11] == bytes[1] && edid[0x13] == bytes[3];
    assert edid[0x15] == bytes[5] && edid[0x16] == bytes[6];
  }

  /** Descriptor k is the last with the tag, or there is none and k is -1. */
  predicate IsLastDescriptor(x: Image, tag: Byte, k: int)
    requires ValidImage(x)
  {
    && -1 <= k < 4
    && (k >= 0 ==> x.descriptors[k].head[3] == tag)
    && forall i :: k < i < 4 ==> x.descriptors[i].head[3] != tag
  }

  function TextAt(x: Image, k: int, old_: Text): Text
    requires ValidImage(x) && k < 4
  {
    if k < 0 then old_ else ParseEdidText(x.descriptors[k].body)
  }

  lemma LastTextOfImage(x: Image, after: seq<Byte>, tag: Byte, k: int, old_: Text)
    requires ValidImage(x) && IsLastDescriptor(x, tag, k)
    ensures LastText(EncodeImage(x) + after, tag, 4, old_) == TextAt(x, k, old_)
  {
    hide ParseEdidText, EncodeImage, LastText, DescriptorTag, DescriptorText;
    var edid := EncodeImage(x) + after;
    forall i | 0 <= i < 4
      ensures DescriptorTag(edid, i) == x.descriptors[i].head[3]
      ensures DescriptorText(edid, i) == ParseEdidText(x.descriptors[i].body)
    {
      DescriptorBytes(x, after, i);
    }
    LastTextIsLast(edid, tag, 4, old_, k);
  }

  /** The texts of an encoded base block: tag 0xFC is the product's name, 0xFE any text, 0xFF the serial number, the
      last of each kind counts, and the model name is the first of name, serial number and text that is not empty. */
  lemma TextsOfImage(r: BaseEdid, x: Image, after: seq<Byte>, edidSize: nat, name: int, text: int, serial: int)
    requires ValidImage(x)
    requires IsLastDescriptor(x, 0xFC, name) && IsLastDescriptor(x, 0xFE, text) && IsLastDescriptor(x, 0xFF, serial)
    ensures var r' := ParseRecord(r, EncodeImage(x) + after, edidSize);
            && r'.displayProductName == TextAt(x, name, r.displayProductName)
            && r'.asciiText == TextAt(x, text, r.asciiText)
            && r'.serialText == TextAt(x, serial, r.serialText)
            && (r'.displayProductName != [] ==> r'.modelName == r'.displayProductName)
            && (r'.displayProductName == [] && r'.serialText != [] ==> r'.modelName == r'.serialText)
            && (r'.displayProductName == [] && r'.serialText == [] ==> r'.modelName == r'.asciiText)
  {
    hide LastText, TextAt, IsLastDescriptor, Bpc, LittleEndian, ManufacturerName, EncodeImage;
    LastTextOfImage(x, after, 0xFC, name, r.displayProductName);
    LastTextOfImage(x, after, 0xFE, text, r.asciiText);
    LastTextOfImage(x, after, 0xFF, serial, r.serialText);
  }

  lemma DepthOfBaseBlock(r: BaseEdid, x: Image, after: seq<Byte>, edidSize: nat)
    requires ValidImage(x)
    ensures var edid := EncodeImage(x) + after;
            ParseRecord(r, edid, edidSize).bitsPerPrimaryColor ==
            if x.minor == 3 then CeaDepth(edid, edidSize)
            else if x.minor < 3 || x.input < 0x90 || x.input >= 0xF0 then 0
            else 4 + 2 * (x.input / 16 - 8)
  {
    hide EncodeImage, LastText, LittleEndian, ManufacturerName, CeaDepth;
    var edid := EncodeImage(x) + after;
    VendorBytes(x, after);
    var bytes := edid[0x10..0x17];
    assert edid[0x13] == bytes[3] && edid[0x14] == bytes[4];
  }

  /** The depth of an encoded image. From revision 4 on a digital input names it, by the codes 1 to 6. Revision 3 takes
      it from the first HDMI vendor block of the extensions, number k of their blocks. All else has none. */
  lemma DepthOfWholeImage(r: BaseEdid, x: Image, xs: seq<Extension>, after: seq<Byte>, edidSize: nat, k: nat,
                          dc48: bool, dc36: bool, dc30: bool, high: nat, low: nat)
    requires ValidImage(x) && ValidExtensions(xs) && x.extensions == |xs| && edidSize >= 128 + |xs| * 128
    requires high < 2 && low < 16 && k <= |BlocksOf(xs)|
    requires forall i :: 0 <= i < k ==> !IsHdmiBlock(BlocksOf(xs)[i])
    requires k < |BlocksOf(xs)| ==>
               IsHdmiBlock(BlocksOf(xs)[k]) &&
               BlocksOf(xs)[k].payload[5] == DeepColorFlags(dc48, dc36, dc30, high, low)
    ensures var depth := ParseRecord(r, EncodeImage(x) + EncodeExtensions(xs) + after, edidSize).bitsPerPrimaryColor;
            if x.minor == 3 then
              if k < |BlocksOf(xs)| then IsLargestFlagged(depth, dc48, dc36, dc30) else depth == 8
            else if x.minor < 3 || x.input < 0x90 || x.input >= 0xF0 then depth == 0
            else depth == 4 + 2 * (x.input / 16 - 8)
  {
    hide EncodeImage, ParseRecord, CeaDepth, IsLargestFlagged, IsHdmiBlock, BlocksOf, EncodeExtensions, ValidExtensions;
    assert EncodeImage(x) + EncodeExtensions(xs) + after == EncodeImage(x) + (EncodeExtensions(xs) + after);
    DepthOfBaseBlock(r, x, EncodeExtensions(xs) + after, edidSize);
    VendorBytes(x, []);
    assert EncodeImage(x) + [] == EncodeImage(x);
    if k < |BlocksOf(xs)| {
      DepthOfImage(EncodeImage(x), xs, after, edidSize, k, dc48, dc36, dc30, high, low);
    } else {
      DefaultDepth(EncodeImage(x), xs, after, edidSize);
    }
  }

  /** The bytes that ParseBaseEdid accepts. */
  predicate Acceptable(edid: seq<Byte>) {
    && |edid| in {128, 256, 384, 512}
    && MAGIC <= edid
  }

  // ---------------------------------------------------------------- the parser

  class EdidRecord {
    var modelName: Text
    var manufacturerName: Text
    var displayProductName: Text
    var asciiText: Text
    var serialText: Text
    var minor: Byte
    var week: Byte
    var year: nat
    var productCode: nat
    var serialNumber: UInt32
    var hScreenSize: Int32
    var vScreenSize: Int32
    var bitsPerPrimaryColor: Byte

    ghost function View(): BaseEdid
      reads this
    {
      BaseEdid(modelName, manufacturerName, displayProductName, asciiText, serialText, minor, week, year,
               productCode, serialNumber, hScreenSize, vScreenSize, bitsPerPrimaryColor)
    }
  }

  method ParseDetailedTiming(edid: seq<Byte>, outEdid: EdidRecord)
    requires BLOCK_SIZE <= |edid|
    modifies outEdid
    ensures outEdid.View() == WithTexts(old(outEdid.View()), edid)
  {
    hide ParseEdidText;
    ghost var start := outEdid.View();
    var i := 0x36;
    ghost var k := 0;
    while i <= 0x6C
      invariant i == 0x36 + 0x12 * k && k <= 4
      invariant outEdid.View() == start.(
          displayProductName := LastText(edid, PRODUCT_NAME_TAG, k, start.displayProductName),
          asciiText := LastText(edid, ASCII_TEXT_TAG, k, start.asciiText),
          serialText := LastText(edid, SERIAL_NUMBER_TAG, k, start.serialText))
    {
      var tag := edid[i + 3];
      var descriptor := edid[i + 5..i + 18];
      if tag == PRODUCT_NAME_TAG {
        outEdid.displayProductName := ParseEdidText(descriptor);
      } else if tag == ASCII_TEXT_TAG {
        outEdid.asciiText := ParseEdidText(descriptor);
      } else if tag == SERIAL_NUMBER_TAG {
        outEdid.serialText := ParseEdidText(descriptor);
      }
      i, k := i + 0x12, k + 1;
    }
    outEdid.modelName := outEdid.displayProductName;
    if outEdid.modelName == [] {
      outEdid.modelName := outEdid.serialText;
    }
    if outEdid.modelName == [] {
      outEdid.modelName := outEdid.asciiText;
    }
  }

  method ParseBpc(edid: seq<Byte>, edidSize: UInt32, bpc: Byte) returns (newBpc: Byte)
    requires BLOCK_SIZE <= |edid|
    ensures bpc == 0 ==> newBpc == Bpc(edid, edidSize)
  {
    newBpc := bpc;
    if edid[0x14] >= 0x80 && edid[0x13] >= 4 {
      var colorBitDepth := edid[0x14] / 16 % 8 * 16;
      if !(colorBitDepth == 0 || colorBitDepth == 0x70) {
        newBpc := colorBitDepth / 8 + 4;
      }
    } else if edid[0x13] == 3 {
      newBpc := ParseBpcFromCEABlock(edid, edidSize);
    }
  }

  method ParseVendorData(edid: seq<Byte>, outEdid: EdidRecord)
    requires BLOCK_SIZE <= |edid|
    modifies outEdid`manufacturerName, outEdid`productCode, outEdid`serialNumber
    ensures outEdid.manufacturerName == ManufacturerName((edid[8] as int) * 256 + edid[9])
    ensures outEdid.productCode == LittleEndian(edid[0x0A..0x0C])
    ensures outEdid.serialNumber == LittleEndian(edid[0x0C..0x10])
  {
    hide ManufacturerName;
    LittleEndianOfTwo(edid[0x0A..0x0C]);
    LittleEndianOfFour(edid[0x0C..0x10]);
    outEdid.manufacturerName := ManufacturerName((edid[8] as int) * 256 + edid[9]);
    var p0: int, p1: int := edid[0x0A], edid[0x0B];
    outEdid.productCode := p0 + p1 * 0x100;
    var s0: int, s1: int, s2: int, s3: int := edid[0x0C], edid[0x0D], edid[0x0E], edid[0x0F];
    outEdid.serialNumber := s0 + s1 * 0x100 + s2 * 0x1_0000 + s3 * 0x100_0000;
  }

  method ParseFields(edid: seq<Byte>, edidSize: UInt32, outEdid: EdidRecord)
    requires BLOCK_SIZE <= |edid|
    modifies outEdid
    ensures outEdid.View() == ParseRecord(old(outEdid.View()), edid, edidSize)
  {
    hide Bpc, WithTexts, LittleEndian, ManufacturerName;
    ParseVendorData(edid, outEdid);
    outEdid.minor := edid[0x13];
    outEdid.week := edid[0x10];
    outEdid.year := (edid[0x11] as int) + 1990;
    outEdid.bitsPerPrimaryColor := ParseBpc(edid, edidSize, 0);
    if edid[0x15] != 0 && edid[0x16] != 0 {
      outEdid.hScreenSize := edid[0x15];
      outEdid.vScreenSize := edid[0x16];
    }
    ParseDetailedTiming(edid, outEdid);
  }

  method ParseBaseEdid(edidData: Option<seq<Byte>>, edidSize: UInt32, outEdid: EdidRecord?) returns (status: int)
    requires edidData.Some? ==> edidSize <= |edidData.value|
    modifies if outEdid == null then {} else {outEdid}
    ensures status == 0 <==> outEdid != null && edidData.Some? && Acceptable(edidData.value[..edidSize])
    ensures status != 0 ==> status == -1
    ensures outEdid != null ==>
              outEdid.View() == if status == 0
                                then ParseRecord(old(outEdid.View()), edidData.value[..edidSize], edidSize)
                                else old(outEdid.View())
  {
    hide ParseRecord;
    if edidData.None? || outEdid == null {
      return -1;
    }
    if edidSize == 0 || edidSize % BLOCK_SIZE != 0 || edidSize > EDID_MAX_SIZE {
      return -1;
    }
    var edid := edidData.value[..edidSize];
    if !(MAGIC <= edid) {
      return -1;
    }
    ParseFields(edid, edidSize, outEdid);
    return 0;
  }

  lemma LittleEndianOfTwo(b: seq<Byte>)
    requires |b| == 2
    ensures LittleEndian(b) == (b[0] as int) + (b[1] as int) * 0x100
  {
    assert LittleEndian(b[1..]) == b[1];
  }

  lemma LittleEndianOfFour(b: seq<Byte>)
    requires |b| == 4
    ensures LittleEndian(b) ==
            (b[0] as int) + (b[1] as int) * 0x100 + (b[2] as int) * 0x1_0000 + (b[3] as int) * 0x100_0000
    ensures LittleEndian(b) < 0x1_0000_0000
  {
    assert b[1..][1..] == b[2..];
    LittleEndianOfTwo(b[2..]);
  }
}
