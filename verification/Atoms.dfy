/** What the receiver of an atom gets, in terms of its name alone. */
module Atoms {
  import opened Bytes
  import opened Decoding
  import opened Reading
  import opened Terms
  import opened Wrappers

  /** The ASCII bytes of a text. */
  function Ascii(text: string): (bs: seq<byte>)
    requires forall k :: 0 <= k < |text| ==> text[k] as int < 0x80
    ensures |bs| == |text| && forall k :: 0 <= k < |text| ==> bs[k] == text[k] as int
  {
    if text == [] then [] else [text[0] as int] + Ascii(text[1..])
  }

  /** Two and four bytes as a number, most significant first. */
  function Two(a: int, b: int): int {
    0x100 * a + b
  }

  function Four(a: int, b: int, c: int, d: int): int {
    0x1_0000 * Two(a, b) + Two(c, d)
  }

  /** `part` stands from `i` on up to `end`. */
  predicate Stands(bytes: seq<byte>, i: nat, part: seq<byte>, end: nat) {
    i + |part| == end <= |bytes| && bytes[i..end] == part
  }

  /** An atom with this name stands at `o` and ends at `end`: ATOM_EXT is 100, SMALL_ATOM_EXT is 115. */
  predicate IsAtomAt(bytes: seq<byte>, o: nat, name: seq<byte>, end: nat) {
    || (Stands(bytes, o + 3, name, end) && bytes[o] == 100 && Two(bytes[o + 1], bytes[o + 2]) == |name|)
    || (Stands(bytes, o + 2, name, end) && bytes[o] == 115 && bytes[o + 1] == |name|)
  }

  /** A BINARY_EXT, which is 109, with these contents. */
  predicate IsBinaryAt(bytes: seq<byte>, o: nat, contents: seq<byte>, end: nat) {
    && Stands(bytes, o + 5, contents, end) && bytes[o] == 109
    && Four(bytes[o + 1], bytes[o + 2], bytes[o + 3], bytes[o + 4]) == |contents|
  }

  lemma LoadTwo(a: byte, b: byte)
    ensures Load([a, b]) == Two(a, b)
  {
    LoadFirst(a, [b]);
    LoadFirst(b, []);
    assert [a] + [b] == [a, b] && [b] + [] == [b];
    PowerValues();
  }

  lemma LoadFour(a: byte, b: byte, c: byte, d: byte)
    ensures Load([a, b, c, d]) == Four(a, b, c, d)
  {
    LoadTwo(c, d);
    LoadFirst(b, [c, d]);
    LoadFirst(a, [b, c, d]);
    assert [b] + [c, d] == [b, c, d] && [a] + [b, c, d] == [a, b, c, d];
    PowerValues();
    assert Power256(3) == 0x100_0000;
  }

  lemma ReadTwo(src: Source, o: nat)
    requires o + 2 <= |src.bytes|
    ensures Read16(src, Good(o)) == Step(Two(src.bytes[o], src.bytes[o + 1]), Good(o + 2))
  {
    LoadTwo(src.bytes[o], src.bytes[o + 1]);
    assert src.bytes[o..o + 2] == [src.bytes[o], src.bytes[o + 1]];
  }

  lemma ReadFour(src: Source, o: nat)
    requires o + 4 <= |src.bytes|
    ensures Read32(src, Good(o))
         == Step(Four(src.bytes[o], src.bytes[o + 1], src.bytes[o + 2], src.bytes[o + 3]), Good(o + 4))
  {
    LoadFour(src.bytes[o], src.bytes[o + 1], src.bytes[o + 2], src.bytes[o + 3]);
    assert src.bytes[o..o + 4] == [src.bytes[o], src.bytes[o + 1], src.bytes[o + 2], src.bytes[o + 3]];
  }

  lemma StringRead(src: Source, i: nat, part: seq<byte>, end: nat)
    requires Stands(src.bytes, i, part, end) && |part| < TWO_TO_32
    ensures ReadString(src, Good(i), |part|) == Step(Some(part), Good(end))
  {
    AtIsSlice(src.bytes, i, part);
    ReadStringAt(src, i, part);
  }

  lemma LongAtomRead(src: Source, o: nat, name: seq<byte>, end: nat)
    requires Stands(src.bytes, o + 3, name, end) && Two(src.bytes[o + 1], src.bytes[o + 2]) == |name|
    ensures DecodeAtom(src, Good(o + 1)) == Step(ProcessAtom(Some(name)), Good(end))
  {
    ReadTwo(src, o + 1);
    StringRead(src, o + 3, name, end);
  }

  lemma ShortAtomRead(src: Source, o: nat, name: seq<byte>, end: nat)
    requires Stands(src.bytes, o + 2, name, end) && src.bytes[o + 1] == |name|
    ensures DecodeSmallAtom(src, Good(o + 1)) == Step(ProcessAtom(Some(name)), Good(end))
  {
    Read8At(src, o + 1, |name|);
    StringRead(src, o + 2, name, end);
  }

  lemma AtomIsProcessed(src: Source, o: nat, name: seq<byte>, end: nat)
    requires IsAtomAt(src.bytes, o, name, end)
    ensures Unpack(src, Good(o)) == Step(ProcessAtom(Some(name)), Good(end))
  {
    UnpackTag(src, o, src.bytes[o]);
    if src.bytes[o] == 100 {
      LongAtomRead(src, o, name, end);
    } else {
      ShortAtomRead(src, o, name, end);
    }
  }

  /** What a name means: nil and null, true and false, and every other name itself. */
  predicate Means(name: seq<byte>, v: Data) {
    && (v == Null <==> name == Ascii("nil") || name == Ascii("null"))
    && (v == Bool(true) <==> name == Ascii("true"))
    && (v == Bool(false) <==> name == Ascii("false"))
    && (v == Null || v.Bool? || v == Str(name))
  }

  /** The four names that do not stand for themselves. */
  predicate IsKeyword(name: seq<byte>) {
    name == Ascii("nil") || name == Ascii("null") || name == Ascii("true") || name == Ascii("false")
  }

  lemma NamesSpelled()
    ensures Ascii("nil") == [110, 105, 108] && Ascii("null") == [110, 117, 108, 108]
    ensures Ascii("true") == [116, 114, 117, 101] && Ascii("false") == [102, 97, 108, 115, 101]
  {
  }

  lemma ProcessedMeans(name: seq<byte>)
    ensures Means(name, ProcessAtom(Some(name)))
  {
    NamesSpelled();
  }

  /** An atom in either form, at any place, with any name. */
  lemma AtomMeans(src: Source, o: nat, name: seq<byte>, end: nat)
    requires IsAtomAt(src.bytes, o, name, end)
    ensures var r := Unpack(src, Good(o));
            r.next == Good(end) && Means(name, r.value)
  {
    AtomIsProcessed(src, o, name, end);
    ProcessedMeans(name);
  }

  lemma ContentsRead(src: Source, o: nat, contents: seq<byte>, end: nat)
    requires IsBinaryAt(src.bytes, o, contents, end)
    ensures DecodeBinaryAsString(src, Good(o + 1)) == Step(Str(contents), Good(end))
  {
    ReadFour(src, o + 1);
    StringRead(src, o + 5, contents, end);
  }

  lemma BinaryMeans(src: Source, o: nat, contents: seq<byte>, end: nat)
    requires IsBinaryAt(src.bytes, o, contents, end)
    ensures Unpack(src, Good(o)) == Step(Str(contents), Good(end))
  {
    UnpackTag(src, o, 109);
    ContentsRead(src, o, contents, end);
  }

  /** An atom, long or short, decodes as a binary of the same bytes does, unless it is one of the four names. */
  lemma AtomIsBinary(src: Source, o: nat, name: seq<byte>, end: nat, other: Source, p: nat, end': nat)
    requires IsAtomAt(src.bytes, o, name, end) && IsBinaryAt(other.bytes, p, name, end')
    ensures Unpack(src, Good(o)).value == Unpack(other, Good(p)).value <==> !IsKeyword(name)
  {
    AtomMeans(src, o, name, end);
    BinaryMeans(other, p, name, end');
  }

  /** A string value with this text in ASCII. */
  predicate IsText(d: Data, text: string) {
    d.Str? && |d.str| == |text| && forall k :: 0 <= k < |text| ==> d.str[k] == text[k] as int
  }

  /** The keys under which the parts of a reference, a port, a pid or an export are found. */
  lemma KeysSpelled()
    ensures IsText(NODE, "node") && IsText(ID, "id") && IsText(CREATION, "creation") && IsText(SERIAL, "serial")
    ensures IsText(MOD, "mod") && IsText(FUN, "fun") && IsText(ARITY, "arity")
  {
  }
}
