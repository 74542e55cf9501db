/**
 * The ASN.1 data object of krypt-core (ext/krypt/core/krypt_asn1.c).
 *
 * An Asn1Data is one TLV item of ITU-T X.690: a header (tag, tag class,
 * constructed bit, indefinite-length flag), the cached identifier, length
 * and content octets it was parsed from or last encoded to, and a value
 * that is decoded from the cached content only when it is asked for.
 * Encoding re-emits the cached octets when there are any, which keeps a
 * BER encoding intact, and otherwise encodes the value.
 *
 * The per-type codecs are not part of this model: the value of a primitive
 * item is represented by its content octets, so that the codec's encoder
 * and decoder are the identity.
 */
module Asn1Data {
  import opened Wrappers
  import opened Tlv

  /** The largest tag of the low-tag-number form (X.690 section 8.1.2.3),
      the largest UNIVERSAL tag the library accepts. */
  const MaxUniversalTag: int := 30

  /** The universal tags krypt_asn1_codecs has an entry for, 0 to 30, and
      whether that entry has an encoder. The table itself is not part of
      this model, so it is a parameter. */
  type CodecTable = t: seq<bool> | |t| == 31 witness seq(31, i => false)

  /** Failures, each standing for the exception the C code raises. */
  datatype Error =
    | Uninitialized           // "Uninitialized krypt_asn1_data"
    | AlreadyInitialized      // "ASN1Data already initialized"
    | TagTooLarge             // "Tag too large for UNIVERSAL tag class" / ParseError
    | TagClassWithoutTag      // "Tag must be specified if tag class is"
    | NullValueNotNil         // "Value for ASN.1 NULL must be nil"
    | TagNotInteger           // NUM2INT(nil) raises a TypeError
    | WrongNumberOfArguments  // rb_scan_args with "12"
    | UnsetCallback           // a call through a callback that was never assigned
    | ValueNotEncodable       // the value has the wrong shape for the encoder
    | TagNotEncodable         // a negative tag number has no identifier octets
    | LengthTooLarge          // more than 126 length octets (X.690 section 8.1.3.5)
    | ContentNotSplit         // constructed content that is not a list of items
    | CodecIndexOutOfRange    // krypt_asn1_codecs read at a negative index
    | PrematureEof            // "Premature EOF detected"

  /** The Ruby class an item is an instance of. */
  datatype Klass =
    | Asn1DataClass           // ASN1Data
    | ConstructiveClass       // ASN1Constructive
    | PrimitiveClass          // ASN1Primitive
    | UniversalClass(tag: nat) // the class krypt_asn1_infos names for a universal tag

  /** The encode callbacks: none yet, int_asn1_data_encode_to (which
      dispatches on the constructed bit), int_asn1_cons_encode_to and
      int_asn1_prim_encode_to. */
  datatype EncodeCb = NoEncoder | DataEncoder | ConsEncoder | PrimEncoder

  /** The decode callbacks, in the same order. */
  datatype DecodeCb = NoDecoder | DataDecoder | ConsDecoder | PrimDecoder

  datatype Callbacks = Callbacks(encode: EncodeCb, decode: DecodeCb)

  /** The @value of an item: nil, a primitive value (its content octets),
      or the array of child items of a constructed value. */
  datatype Value =
    | Nil
    | Prim(octets: seq<byte>)
    | List(children: seq<Asn1Data>)

  // ---------------------------------------------------------------------
  // Codec selection and the universal tag range
  // ---------------------------------------------------------------------

  /** int_codec_for (lines 98-114) as written: for a UNIVERSAL tag below 31
      it reads entry `tag` of the codec table, which for a negative tag is
      a read in front of the table. */
  function CodecForAsWritten(tag: int, tagClass: TagClass, codecs: CodecTable): (r: Result<Option<nat>, Error>)
    ensures r.Err? <==> tag < 0 && tagClass == Universal
  {
    if tag < 31 && tagClass == Universal then
      if tag < 0 then Err(CodecIndexOutOfRange)
      else if !codecs[tag] then Ok(None) else Ok(Some(tag))
    else Ok(None)
  }

  /** A UNIVERSAL item with tag -1 makes int_codec_for read in front of the
      codec table. */
  lemma NegativeUniversalTagReadsOutsideTable(codecs: CodecTable)
    ensures CodecForAsWritten(-1, Universal, codecs) == Err(CodecIndexOutOfRange)
  {
  }

  /** int_codec_for with the table index kept in range: a codec is chosen
      only for a UNIVERSAL tag from 0 to 30 whose table entry has an
      encoder, and it is that entry. */
  function CodecFor(tag: int, tagClass: TagClass, codecs: CodecTable): (r: Option<nat>)
    ensures r.Some? <==> 0 <= tag <= MaxUniversalTag && tagClass == Universal && codecs[tag]
    ensures r.Some? ==> r.value == tag && r.value < |codecs|
  {
    if 0 <= tag < 31 && tagClass == Universal then
      if !codecs[tag] then None else Some(tag)
    else None
  }

  /** Wherever the as-written lookup stays inside the table, the corrected
      one chooses the same codec. */
  lemma CodecForAgrees(tag: int, tagClass: TagClass, codecs: CodecTable)
    requires CodecForAsWritten(tag, tagClass, codecs).Ok?
    ensures CodecForAsWritten(tag, tagClass, codecs).value == CodecFor(tag, tagClass, codecs)
  {
  }

  /** The check of lines 189-191, 271-272 and 303-304: a UNIVERSAL tag must
      use the low-tag-number form. */
  predicate TagAllowed(tag: int, tagClass: TagClass) {
    !(tagClass == Universal && tag > MaxUniversalTag)
  }

  // ---------------------------------------------------------------------
  // Parsed items: Ruby class and callbacks (krypt_asn1_data_new)
  // ---------------------------------------------------------------------

  /** The universal tags whose krypt_asn1_infos entry (lines 50-82) names
      no Ruby class. */
  predicate NoInfoClass(tag: nat) {
    tag == 7 || tag == 8 || tag == 9 || tag == 11 || tag == 13 || tag == 14 || tag == 15 || tag == 29
  }

  /** The Ruby class krypt_asn1_data_new (lines 193-207) picks, as written:
      None where it dereferences the NULL class pointer of the infos table. */
  function KlassForParsedAsWritten(h: Header): (r: Option<Klass>)
    requires TagAllowed(h.tag, h.tagClass)
    ensures r.None? <==> h.tagClass == Universal && !h.isConstructed && NoInfoClass(h.tag)
  {
    if h.tagClass == Universal then
      if h.isConstructed then Some(ConstructiveClass)
      else if NoInfoClass(h.tag) then None
      else Some(UniversalClass(h.tag))
    else Some(Asn1DataClass)
  }

  /** A primitive REAL (UNIVERSAL 9), such as the encoding 09 00 of the
      value 0, is parsed through a NULL class pointer. */
  lemma RealHasNoClass()
    ensures KlassForParsedAsWritten(Header(9, Universal, false, false, [0x09], [0x00])).None?
  {
  }

  /** The class choice with a fallback for the universal tags the infos
      table has no class for. The documentation of the classes (lines
      872-875) says a parsed item is an instance of a subclass of Primitive
      or of ASN1Data, never of Primitive itself; the fallback taken here is
      ASN1Data, the class of the items the library has no type for. */
  function KlassForParsed(h: Header): (r: Klass)
    requires TagAllowed(h.tag, h.tagClass)
    ensures KlassForParsedAsWritten(h).Some? ==> r == KlassForParsedAsWritten(h).value
    ensures h.tagClass == Universal && !h.isConstructed ==> r == Asn1DataClass || r == UniversalClass(h.tag)
    ensures r != PrimitiveClass
    ensures h.tagClass != Universal ==> r == Asn1DataClass
  {
    if h.tagClass == Universal then
      if h.isConstructed then ConstructiveClass
      else if NoInfoClass(h.tag) then Asn1DataClass
      else UniversalClass(h.tag)
    else Asn1DataClass
  }

  /** The callbacks krypt_asn1_data_new (lines 193-207) installs, as
      written: an item of a class other than UNIVERSAL gets a decoder but
      no encoder. */
  function CallbacksForParsedAsWritten(h: Header): Callbacks {
    if h.tagClass == Universal then
      if h.isConstructed then Callbacks(ConsEncoder, ConsDecoder)
      else Callbacks(PrimEncoder, PrimDecoder)
    else Callbacks(NoEncoder, DataDecoder)
  }

  /** Whether an encode callback encodes as constructed (Some(true)), as
      primitive (Some(false)), or cannot be called (None). */
  function EncoderShape(cb: EncodeCb, isConstructed: bool): Option<bool> {
    match cb
    case NoEncoder => None
    case DataEncoder => Some(isConstructed)
    case ConsEncoder => Some(true)
    case PrimEncoder => Some(false)
  }

  function DecoderShape(cb: DecodeCb, isConstructed: bool): Option<bool> {
    match cb
    case NoDecoder => None
    case DataDecoder => Some(isConstructed)
    case ConsDecoder => Some(true)
    case PrimDecoder => Some(false)
  }

  /** An item of class APPLICATION, CONTEXT-SPECIFIC or PRIVATE can be
      decoded but, once its cached octets are gone, not encoded. */
  lemma TaggedItemHasNoEncoder(h: Header)
    requires h.tagClass != Universal
    ensures DecoderShape(CallbacksForParsedAsWritten(h).decode, h.isConstructed) == Some(h.isConstructed)
    ensures EncoderShape(CallbacksForParsedAsWritten(h).encode, h.isConstructed).None?
  {
  }

  /** The callbacks with int_asn1_data_encode_to installed for the tagged
      items, as for items of class UNIVERSAL. */
  function CallbacksForParsed(h: Header): (r: Callbacks)
    ensures h.tagClass == Universal ==> r == CallbacksForParsedAsWritten(h)
  {
    if h.tagClass == Universal then CallbacksForParsedAsWritten(h)
    else Callbacks(DataEncoder, DataDecoder)
  }

  /** Every parsed item can be encoded again, in the shape it was decoded
      in, whatever its constructed bit is later set to. */
  lemma CallbacksForParsedAgree(h: Header, isConstructed: bool)
    ensures EncoderShape(CallbacksForParsed(h).encode, isConstructed).Some?
    ensures EncoderShape(CallbacksForParsed(h).encode, isConstructed)
         == DecoderShape(CallbacksForParsed(h).decode, isConstructed)
    ensures EncoderShape(CallbacksForParsed(h).encode, h.isConstructed) == Some(h.isConstructed)
  {
  }

  // ---------------------------------------------------------------------
  // Header octets (X.690 sections 8.1.2 and 8.1.3)
  // ---------------------------------------------------------------------

  /** Bits 8 and 7 of the identifier octet. */
  function ClassNumber(c: TagClass): (n: nat)
    ensures n < 4
  {
    match c
    case Universal => 0
    case Application => 1
    case ContextSpecific => 2
    case Private => 3
  }

  /** The subsequent identifier octets of the high-tag-number form: base
      128, most significant digit first, bit 8 set on all but the last. */
  function Base128(n: nat): (r: seq<byte>)
    ensures |r| >= 1 && r[|r| - 1] < 128
    ensures forall i :: 0 <= i < |r| - 1 ==> r[i] >= 128
  {
    if n < 128 then [n] else Base128More(n / 128) + [n % 128]
  }

  function Base128More(n: nat): (r: seq<byte>)
    ensures |r| >= 1 && forall i :: 0 <= i < |r| ==> r[i] >= 128
  {
    if n < 128 then [128 + n] else Base128More(n / 128) + [128 + n % 128]
  }

  /** The number the subsequent identifier octets denote: the low seven
      bits of each octet are its digits, most significant first. */
  function Base128Value(s: seq<byte>): nat {
    if s == [] then 0 else 128 * Base128Value(s[..|s| - 1]) + s[|s| - 1] % 128
  }

  lemma {:induction false} Base128MoreValue(n: nat)
    ensures Base128Value(Base128More(n)) == n
  {
    if n >= 128 {
      Base128MoreValue(n / 128);
      var s := Base128More(n);
      assert s[..|s| - 1] == Base128More(n / 128);
    }
  }

  /** The digits of the high-tag-number form denote the tag they were made
      from. */
  lemma {:induction false} Base128ValueOfBase128(n: nat)
    ensures Base128Value(Base128(n)) == n
  {
    if n >= 128 {
      Base128MoreValue(n / 128);
      var s := Base128(n);
      assert s[..|s| - 1] == Base128More(n / 128);
    }
  }

  /** The identifier octets of a header. The header encoder of the library
      is not part of this model; these are the octets X.690 prescribes. */
  function IdentifierOctets(tag: int, tagClass: TagClass, isConstructed: bool): (r: Result<seq<byte>, Error>)
    ensures r.Err? <==> tag < 0
    ensures r.Ok? ==> |r.value| >= 1 && r.value[0] / 64 == ClassNumber(tagClass)
    ensures r.Ok? ==> (r.value[0] / 32) % 2 == (if isConstructed then 1 else 0)
    ensures r.Ok? && tag <= MaxUniversalTag ==> r.value == [r.value[0]] && r.value[0] % 32 == tag
    ensures r.Ok? && tag > MaxUniversalTag ==> r.value[0] % 32 == 31 && r.value[1..] == Base128(tag)
  {
    if tag < 0 then Err(TagNotEncodable)
    else
      var lead := 64 * ClassNumber(tagClass) + (if isConstructed then 32 else 0);
      if tag <= MaxUniversalTag then Ok([lead + tag]) else Ok([lead + 31] + Base128(tag))
  }

  /** A tag reads back from its identifier octets: from the low five bits
      of the first octet, or, when those are all set, from the base-128
      digits after it. */
  lemma IdentifierOctetsTag(tag: int, tagClass: TagClass, isConstructed: bool)
    requires tag >= 0
    ensures var r := IdentifierOctets(tag, tagClass, isConstructed).value;
      (if r[0] % 32 < 31 then r[0] % 32 else Base128Value(r[1..])) == tag
  {
    if tag > MaxUniversalTag {
      Base128ValueOfBase128(tag);
    }
  }

  /** The octets of a number, most significant first, without leading
      zero octets. */
  function BigEndian(n: nat): (r: seq<byte>)
    ensures |r| >= 1 && (n >= 256 ==> r[0] != 0)
  {
    if n < 256 then [n] else BigEndian(n / 256) + [n % 256]
  }

  /** The number a sequence of octets denotes, most significant first. */
  function OctetsValue(s: seq<byte>): nat {
    if s == [] then 0 else 256 * OctetsValue(s[..|s| - 1]) + s[|s| - 1]
  }

  /** The long-form length octets denote the length they were made from. */
  lemma {:induction false} BigEndianValue(n: nat)
    ensures OctetsValue(BigEndian(n)) == n
  {
    if n >= 256 {
      BigEndianValue(n / 256);
      var s := BigEndian(n);
      assert s[..|s| - 1] == BigEndian(n / 256);
    }
  }

  /** The length octets of a header: 0x80 for the indefinite form, the
      short form below 128, and the long form otherwise. */
  function LengthOctets(isInfinite: bool, len: nat): (r: Result<seq<byte>, Error>)
    ensures isInfinite ==> r == Ok([0x80])
    ensures !isInfinite && len < 128 ==> r == Ok([len])
    ensures !isInfinite && len >= 128 ==> (r.Ok? <==> |BigEndian(len)| <= 126)
    ensures !isInfinite && len >= 128 && r.Ok? ==>
      (|r.value| >= 2 && r.value[0] == 128 + |r.value| - 1 && r.value[1..] == BigEndian(len))
  {
    if isInfinite then Ok([0x80])
    else if len < 128 then Ok([len])
    else
      var be := BigEndian(len);
      if |be| > 126 then Err(LengthTooLarge) else Ok([128 + |be|] + be)
  }

  /** The content octets the value encoder produces: a nil value encodes
      to no octets, a primitive value to its octets, and an array cannot
      be encoded as a primitive. */
  function PrimOctets(v: Value): (r: Result<seq<byte>, Error>)
    ensures r.Err? <==> v.List?
  {
    match v
    case Nil => Ok([])
    case Prim(o) => Ok(o)
    case List(_) => Err(ValueNotEncodable)
  }

  // ---------------------------------------------------------------------
  // Constructor arguments (rb_scan_args with "12")
  // ---------------------------------------------------------------------

  /** The arguments of a constructor: their number, the value, and the tag
      and tag class, None standing for nil or an argument not given. */
  datatype CtorArgs = CtorArgs(count: nat, value: Value, tag: Option<int>, tagClass: Option<TagClass>)

  /** What rb_scan_args guarantees: arguments not given are nil. */
  predicate ArgsWellFormed(a: CtorArgs) {
    (a.count == 0 ==> a.value == Nil)
    && (a.count < 2 ==> a.tag.None?)
    && (a.count < 3 ==> a.tagClass.None?)
  }

  /** The arguments once defaults are filled in: a tag that is still None
      makes NUM2INT raise. */
  datatype Resolved = Resolved(value: Value, tag: Option<int>, tagClass: TagClass)

  /** The arguments of krypt_asn1_null_initialize (lines 343-365): no
      argument at all means NULL, UNIVERSAL; a tag class needs a tag; the
      value must be nil. */
  function NullArgs(a: CtorArgs): (r: Result<Resolved, Error>)
    requires ArgsWellFormed(a)
    ensures a.count == 0 ==> r == Ok(Resolved(Nil, Some(5), Universal))
    ensures a.count > 3 ==> r == Err(WrongNumberOfArguments)
    ensures 0 < a.count <= 3 && a.tagClass.Some? && a.tag.None? ==> r == Err(TagClassWithoutTag)
    ensures r.Ok? ==> r.value.value == Nil && r.value.tag.Some?
    ensures r.Ok? <==> a.count <= 3 && a.value == Nil && (a.tagClass.Some? ==> a.tag.Some?)
    ensures r.Ok? && a.tag.Some? ==> r.value.tag == a.tag
    ensures r.Ok? && a.tag.None? ==> r.value.tag == Some(5) && r.value.tagClass == Universal
    ensures r.Ok? && a.tagClass.Some? ==> r.value.tagClass == a.tagClass.value
  {
    if a.count == 0 then Ok(Resolved(Nil, Some(5), Universal))
    else if a.count > 3 then Err(WrongNumberOfArguments)
    else if a.tagClass.Some? && a.tag.None? then Err(TagClassWithoutTag)
    else
      var tag := if a.tag.None? then Some(5) else a.tag;
      var tagClass := if a.tagClass.None? then Universal else a.tagClass.value;
      if a.value != Nil then Err(NullValueNotNil)
      else Ok(Resolved(a.value, tag, tagClass))
  }

  /** The arguments of krypt_asn1_bit_string_initialize (lines 376-393):
      BIT STRING, UNIVERSAL by default, and a tag class needs a tag. */
  function BitStringArgs(a: CtorArgs): (r: Result<Resolved, Error>)
    requires ArgsWellFormed(a)
    ensures r.Ok? <==> 1 <= a.count <= 3 && (a.tagClass.Some? ==> a.tag.Some?)
    ensures r.Err? && 1 <= a.count <= 3 ==> r.error == TagClassWithoutTag
    ensures r.Ok? ==> r.value.value == a.value && r.value.tag.Some?
    ensures r.Ok? ==> r.value.tag == (if a.tag.Some? then a.tag else Some(3))
    ensures r.Ok? ==> r.value.tagClass == (if a.tagClass.Some? then a.tagClass.value else Universal)
  {
    if a.count == 0 || a.count > 3 then Err(WrongNumberOfArguments)
    else if a.tagClass.Some? && a.tag.None? then Err(TagClassWithoutTag)
    else
      var tag := if a.tag.None? then Some(3) else a.tag;
      var tagClass := if a.tagClass.None? then Universal else a.tagClass.value;
      Ok(Resolved(a.value, tag, tagClass))
  }

  /** The arguments of the constructors KRYPT_ASN1_DEFINE_CTOR generates
      (lines 403-420): with the value alone the type's own tag and
      UNIVERSAL; with more arguments a tag class needs a tag, the class
      defaults to UNIVERSAL, and a nil tag is left for NUM2INT to refuse. */
  function TypedArgs(a: CtorArgs, defaultTag: nat): (r: Result<Resolved, Error>)
    requires ArgsWellFormed(a)
    ensures r.Ok? <==> 1 <= a.count <= 3 && (a.count > 1 && a.tagClass.Some? ==> a.tag.Some?)
    ensures r.Ok? ==> r.value.value == a.value
    ensures r.Ok? && a.count == 1 ==> r.value.tag == Some(defaultTag) && r.value.tagClass == Universal
    ensures r.Ok? && a.count > 1 ==> r.value.tag == a.tag
    ensures r.Ok? && a.tagClass.None? ==> r.value.tagClass == Universal
    ensures r.Ok? && a.tagClass.Some? ==> r.value.tagClass == a.tagClass.value
  {
    if a.count == 0 || a.count > 3 then Err(WrongNumberOfArguments)
    else if a.count > 1 then
      if a.tagClass.Some? && a.tag.None? then Err(TagClassWithoutTag)
      else Ok(Resolved(a.value, a.tag, if a.tagClass.None? then Universal else a.tagClass.value))
    else Ok(Resolved(a.value, Some(defaultTag), Universal))
  }

  /** Qtrue of the Ruby VM: 20 since Ruby 2.0 and 2 before it, never 0
      or 1. */
  const QTrue: int := 20

  /** rb_respond_to(value, :each), the C int it returns: 1 for an array,
      0 for nil and for an octet string. */
  function RespondsToEach(v: Value): (r: int)
    ensures r == 0 || r == 1
  {
    if v.List? then 1 else 0
  }

  /** The constructed bit krypt_asn1_data_initialize computes, as written (line 274): the
      C int is compared with Qtrue, so the bit is never set. */
  function DataConstructedAsWritten(v: Value): (r: bool)
    ensures !r
  {
    RespondsToEach(v) == QTrue
  }

  /** The constructed bit as value= computes it (line 599): set exactly for
      an array value. */
  function DataConstructed(v: Value): (r: bool)
    ensures r <==> v.List?
  {
    RespondsToEach(v) != 0
  }

  /** The tags of the types KRYPT_ASN1_DEFINE_CTOR is instantiated for
      (lines 422-442). */
  predicate IsTypedCtorTag(t: nat) {
    t in {1, 2, 4, 6, 10, 12, 16, 17, 18, 19, 20, 21, 22, 23, 24, 25, 26, 27, 28, 30}
  }

  // ---------------------------------------------------------------------
  // The item
  // ---------------------------------------------------------------------


  /** The header of an item (struct krypt_asn1_header): tag, class, the
      constructed bit and the indefinite-length flag, with the caches of
      the identifier octets, the length octets, the content length and the
      header length. */
  datatype ItemHeader = ItemHeader(
    tag: int,
    tagClass: TagClass,
    isConstructed: bool,
    isInfinite: bool,
    tagBytes: Option<seq<byte>>,
    lengthBytes: Option<seq<byte>>,
    length: nat,
    headerLength: nat)

  /** The header int_asn1_data_initialize creates: nothing cached yet. */
  function NewHeader(tag: int, tagClass: TagClass, isConstructed: bool, isInfinite: bool): ItemHeader {
    ItemHeader(tag, tagClass, isConstructed, isInfinite, None, None, 0, 0)
  }

  /** The header of a parsed item: the octets it was read from are cached. */
  function ParsedHeader(h: Header, len: nat): ItemHeader {
    ItemHeader(h.tag, h.tagClass, h.isConstructed, h.isInfinite, Some(h.tagOctets), Some(h.lengthOctets),
      len, |h.tagOctets| + |h.lengthOctets|)
  }

  /** The header octets for a content of `len` octets: the cached
      identifier and length octets where present, and otherwise those
      X.690 prescribes. */
  function HeaderOctets(h: ItemHeader, len: nat): (r: Result<seq<byte>, Error>)
    ensures h.tagBytes.Some? && h.lengthBytes.Some? ==> r == Ok(h.tagBytes.value + h.lengthBytes.value)
    ensures h.tagBytes.None? && h.tag < 0 ==> r == Err(TagNotEncodable)
    ensures h.lengthBytes.Some? || h.isInfinite ==> HeaderOctets(h, 0) == r
  {
    var id := if h.tagBytes.Some? then Ok(h.tagBytes.value) else IdentifierOctets(h.tag, h.tagClass, h.isConstructed);
    var lo := if h.lengthBytes.Some? then Ok(h.lengthBytes.value) else LengthOctets(h.isInfinite, len);
    if id.Err? then Err(id.error)
    else if lo.Err? then Err(lo.error)
    else Ok(id.value + lo.value)
  }

  class Asn1Data {
    /** The C struct behind the Ruby object exists (DATA_PTR is set). */
    var initialized: bool
    var klass: Klass
    var header: ItemHeader
    /** The cached content octets (object->bytes). */
    var bytes: Option<Content>
    var codec: Option<nat>
    var encodeCb: EncodeCb
    var decodeCb: DecodeCb
    var value: Value
    /** @unused_bits of a BIT STRING. */
    var unusedBits: Option<int>
    ghost var Repr: set<object>

    /** The item and, for an array value, the children, each with its own
        representation inside this one and apart from the item. */
    ghost predicate Valid()
      reads this, Repr
      decreases Repr, 1
    {
      this in Repr &&
      (value.List? ==> ChildrenValid(value.children, Repr - {this}))
    }

    /** Every item of `cs` is valid, with its representation inside `bound`. */
    static ghost predicate ChildrenValid(cs: seq<Asn1Data>, bound: set<object>)
      reads bound
      decreases bound, 2
    {
      forall i :: 0 <= i < |cs| ==> cs[i] in bound && cs[i].Repr <= bound && cs[i].Valid()
    }

    /** krypt_asn1_data_alloc: a Ruby object without its C struct. */
    constructor Alloc(k: Klass)
      ensures Valid() && Repr == {this}
      ensures !initialized && klass == k && value == Nil && bytes.None? && unusedBits.None?
      ensures codec.None? && encodeCb == NoEncoder && decodeCb == NoDecoder
    {
      initialized := false;
      klass := k;
      header := NewHeader(0, Universal, false, false);
      bytes := None;
      codec := None;
      encodeCb := NoEncoder;
      decodeCb := NoDecoder;
      value := Nil;
      unusedBits := None;
      Repr := {this};
    }

    /** The state krypt_asn1_data_new leaves a parsed item in. */
    predicate IsParsedFrom(t: Tlv, codecs: CodecTable)
      reads this
    {
      TagAllowed(t.header.tag, t.header.tagClass) &&
      initialized && klass == KlassForParsed(t.header) &&
      header == ParsedHeader(t.header, |ContentOctets(t.content)|) &&
      bytes == Some(t.content) && codec == CodecFor(t.header.tag, t.header.tagClass, codecs) &&
      Callbacks(encodeCb, decodeCb) == CallbacksForParsed(t.header) &&
      value == Nil && unusedBits.None?
    }

    /** The item krypt_asn1_data_new (lines 172-215) makes of a parsed
        header and its content. */
    constructor Parsed(t: Tlv, codecs: CodecTable)
      requires TagAllowed(t.header.tag, t.header.tagClass)
      ensures Valid() && Repr == {this} && IsParsedFrom(t, codecs)
    {
      var cbs := CallbacksForParsed(t.header);
      initialized := true;
      klass := KlassForParsed(t.header);
      header := ParsedHeader(t.header, |ContentOctets(t.content)|);
      bytes := Some(t.content);
      codec := CodecFor(t.header.tag, t.header.tagClass, codecs);
      encodeCb := cbs.encode;
      decodeCb := cbs.decode;
      value := Nil;
      unusedBits := None;
      Repr := {this};
    }

    /** krypt_asn1_data_new (lines 172-215): a UNIVERSAL tag above 30 is a
        parse error. */
    static method FromParsed(t: Tlv, codecs: CodecTable) returns (r: Result<Asn1Data, Error>)
      ensures r.Err? <==> !TagAllowed(t.header.tag, t.header.tagClass)
      ensures r.Err? ==> r.error == TagTooLarge
      ensures r.Ok? ==> fresh(r.value) && r.value.Valid() && r.value.Repr == {r.value}
      ensures r.Ok? ==> r.value.IsParsedFrom(t, codecs)
    {
      if !TagAllowed(t.header.tag, t.header.tagClass) {
        return Err(TagTooLarge);
      }
      var d := new Asn1Data.Parsed(t, codecs);
      return Ok(d);
    }

    /** krypt_asn1_decode (lines 785-795): the first item of a stream, an
        empty stream being a premature end of file. */
    static method Decode(stream: seq<Tlv>, codecs: CodecTable) returns (r: Result<Asn1Data, Error>)
      ensures stream == [] ==> r == Err(PrematureEof)
      ensures stream != [] ==> (r.Ok? <==> TagAllowed(stream[0].header.tag, stream[0].header.tagClass))
      ensures r.Ok? ==> fresh(r.value) && r.value.Valid() && r.value.IsParsedFrom(stream[0], codecs)
    {
      if stream == [] {
        return Err(PrematureEof);
      }
      r := FromParsed(stream[0], codecs);
    }

    // -------------------------------------------------------------------
    // Encoding
    // -------------------------------------------------------------------

    /** What int_asn1_encode_to (lines 617-636) writes: the cached octets
        when there are any, and otherwise the value through the encode
        callback. */
    function Encoding(): (r: Result<seq<byte>, Error>)
      requires Valid()
      reads Repr
      decreases Repr, 2
    {
      if !initialized then Err(Uninitialized)
      else if bytes.Some? then
        match HeaderOctets(header, header.length)
        case Err(e) => Err(e)
        case Ok(h) => Ok(h + ContentOctets(bytes.value))
      else
        match encodeCb
        case NoEncoder => Err(UnsetCallback)
        case ConsEncoder => ConsEncoding()
        case PrimEncoder => PrimEncoding()
        case DataEncoder => if header.isConstructed then ConsEncoding() else PrimEncoding()
    }

    /** int_asn1_prim_encode_to (lines 766-781): the value's content octets
        after a header giving their length. */
    function PrimEncoding(): (r: Result<seq<byte>, Error>)
      reads this
    {
      match PrimOctets(value)
      case Err(e) => Err(e)
      case Ok(c) =>
        match HeaderOctets(header, |c|)
        case Err(e) => Err(e)
        case Ok(h) => Ok(h + c)
    }

    /** int_asn1_cons_encode_to (lines 719-745): without cached length
        octets and with a definite length, the children are encoded first
        and their total size is the length; otherwise the header is written
        first and the children follow. */
    function ConsEncoding(): (r: Result<seq<byte>, Error>)
      requires Valid()
      reads Repr
      decreases Repr, 1
    {
      if !value.List? then Err(ValueNotEncodable)
      else if header.lengthBytes.None? && !header.isInfinite then
        match ItemsEncoding(value.children, Repr - {this})
        case Err(e) => Err(e)
        case Ok(c) =>
          match HeaderOctets(header, |c|)
          case Err(e) => Err(e)
          case Ok(h) => Ok(h + c)
      else
        match HeaderOctets(header, header.length)
        case Err(e) => Err(e)
        case Ok(h) =>
          match ItemsEncoding(value.children, Repr - {this})
          case Err(e) => Err(e)
          case Ok(c) => Ok(h + c)
    }

    /** The encodings of a sequence of items, one after the other in
        array order; the first failure is the result. */
    static function ItemsEncoding(cs: seq<Asn1Data>, ghost bound: set<object>): (r: Result<seq<byte>, Error>)
      requires ChildrenValid(cs, bound)
      reads bound
      decreases bound, 3, |cs|
    {
      if cs == [] then Ok([])
      else
        match ItemsEncoding(cs[..|cs| - 1], bound)
        case Err(e) => Err(e)
        case Ok(p) =>
          match cs[|cs| - 1].Encoding()
          case Err(e) => Err(e)
          case Ok(q) => Ok(p + q)
    }

    /** A failure in the encoding of a prefix is the failure of the whole. */
    static lemma {:induction false} ItemsEncodingErrSticks(cs: seq<Asn1Data>, bound: set<object>, i: nat, j: nat)
      requires ChildrenValid(cs, bound)
      requires i <= j <= |cs|
      requires ItemsEncoding(cs[..i], bound).Err?
      ensures ItemsEncoding(cs[..j], bound) == ItemsEncoding(cs[..i], bound)
      decreases j - i
    {
      if i < j {
        assert cs[..i + 1][..i] == cs[..i];
        ItemsEncodingErrSticks(cs, bound, i + 1, j);
      }
    }

    /** The encoding of a sequence of items succeeds exactly when every
        item's encoding does. */
    static lemma {:induction false} ItemsEncodingOk(cs: seq<Asn1Data>, bound: set<object>)
      requires ChildrenValid(cs, bound)
      ensures ItemsEncoding(cs, bound).Ok? <==> forall k :: 0 <= k < |cs| ==> cs[k].Encoding().Ok?
    {
      if cs != [] {
        var n := |cs| - 1;
        ItemsEncodingOk(cs[..n], bound);
        assert forall k :: 0 <= k < n ==> cs[..n][k] == cs[k];
      }
    }

    /** The encoding of a prefix of the items is a prefix of the encoding
        of all of them. */
    static lemma {:induction false} ItemsEncodingPrefix(cs: seq<Asn1Data>, bound: set<object>, j: nat)
      requires ChildrenValid(cs, bound) && j <= |cs|
      requires ItemsEncoding(cs, bound).Ok?
      ensures ItemsEncoding(cs[..j], bound).Ok?
      ensures ItemsEncoding(cs[..j], bound).value <= ItemsEncoding(cs, bound).value
    {
      if j < |cs| {
        var n := |cs| - 1;
        ItemsEncodingPrefix(cs[..n], bound, j);
        assert cs[..n][..j] == cs[..j];
      } else {
        assert cs[..j] == cs;
      }
    }

    /** Item k's encoding follows those of the items before it. */
    static lemma ItemsEncodingAt(cs: seq<Asn1Data>, bound: set<object>, k: nat)
      requires ChildrenValid(cs, bound) && k < |cs|
      requires ItemsEncoding(cs, bound).Ok?
      ensures ItemsEncoding(cs[..k], bound).Ok? && cs[k].Encoding().Ok?
      ensures var s := |ItemsEncoding(cs[..k], bound).value|;
        s + |cs[k].Encoding().value| <= |ItemsEncoding(cs, bound).value| &&
        ItemsEncoding(cs, bound).value[s .. s + |cs[k].Encoding().value|] == cs[k].Encoding().value
    {
      ItemsEncodingPrefix(cs, bound, k + 1);
      assert cs[..k + 1][..k] == cs[..k];
      assert cs[..k + 1][k] == cs[k];
    }

    /** The encoding of a constructed value fails exactly when one of its
        children's encodings fails; otherwise every child's encoding
        appears in it, in array order, directly after those of the
        children before it. */
    static lemma ItemsEncodingInOrder(cs: seq<Asn1Data>, bound: set<object>)
      requires ChildrenValid(cs, bound)
      ensures ItemsEncoding(cs, bound).Ok? <==> forall k :: 0 <= k < |cs| ==> cs[k].Encoding().Ok?
      ensures ItemsEncoding(cs, bound).Ok? ==> forall k :: 0 <= k < |cs| ==>
        (ItemsEncoding(cs[..k], bound).Ok? && cs[k].Encoding().Ok? &&
         var s := |ItemsEncoding(cs[..k], bound).value|;
         s + |cs[k].Encoding().value| <= |ItemsEncoding(cs, bound).value| &&
         ItemsEncoding(cs, bound).value[s .. s + |cs[k].Encoding().value|] == cs[k].Encoding().value)
    {
      ItemsEncodingOk(cs, bound);
      if ItemsEncoding(cs, bound).Ok? {
        forall k | 0 <= k < |cs|
          ensures ItemsEncoding(cs[..k], bound).Ok? && cs[k].Encoding().Ok?
          ensures var s := |ItemsEncoding(cs[..k], bound).value|;
            s + |cs[k].Encoding().value| <= |ItemsEncoding(cs, bound).value| &&
            ItemsEncoding(cs, bound).value[s .. s + |cs[k].Encoding().value|] == cs[k].Encoding().value
        {
          ItemsEncodingAt(cs, bound, k);
        }
      }
    }

    /** A parsed item encodes to the very octets it was parsed from. */
    lemma ParsedEncoding(t: Tlv, codecs: CodecTable)
      requires Valid() && IsParsedFrom(t, codecs)
      ensures Encoding() == Ok(TlvOctets(t))
    {
    }

    /** Items parsed one by one from a list encode to that list's octets. */
    static lemma {:induction false} ItemsEncodingOfParsed(cs: seq<Asn1Data>, bound: set<object>, items: seq<Tlv>, codecs: CodecTable)
      requires |cs| == |items| && ChildrenValid(cs, bound)
      requires forall k :: 0 <= k < |cs| ==> cs[k].IsParsedFrom(items[k], codecs)
      ensures ItemsEncoding(cs, bound) == Ok(ItemsOctets(items))
    {
      if cs != [] {
        var n := |cs| - 1;
        ItemsEncodingOfParsed(cs[..n], bound, items[..n], codecs);
        cs[n].ParsedEncoding(items[n], codecs);
        ItemsOctetsSnoc(items[..n], items[n]);
        assert items[..n] + [items[n]] == items;
      }
    }

    /** int_cons_encode_sub_elems (lines 705-717): the children, encoded
        one after the other. */
    static method EncodeSubElems(cs: seq<Asn1Data>, ghost bound: set<object>) returns (r: Result<seq<byte>, Error>)
      requires ChildrenValid(cs, bound)
      ensures r == ItemsEncoding(cs, bound)
    {
      var out: seq<byte> := [];
      var i := 0;
      while i < |cs|
        invariant 0 <= i <= |cs|
        invariant ItemsEncoding(cs[..i], bound) == Ok(out)
      {
        assert cs[..i + 1][..i] == cs[..i];
        var e := cs[i].Encoding();
        if e.Err? {
          ItemsEncodingErrSticks(cs, bound, i + 1, |cs|);
          assert cs[..|cs|] == cs;
          return Err(e.error);
        }
        out := out + e.value;
        i := i + 1;
      }
      assert cs[..i] == cs;
      return Ok(out);
    }

    /** int_asn1_prim_encode_to (lines 766-781): caches the content octets
        and their length, then writes header and content. */
    method PrimEncodeTo() returns (r: Result<seq<byte>, Error>)
      requires Valid() && initialized && bytes.None?
      modifies this
      ensures Valid() && Repr == old(Repr)
      ensures r == old(PrimEncoding())
      ensures old(value).List? ==> unchanged(this)
      ensures !old(value).List? ==>
        (bytes == Some(Octets(PrimOctets(old(value)).value)) &&
         header == old(header).(length := |PrimOctets(old(value)).value|))
      ensures initialized && value == old(value) && codec == old(codec) && klass == old(klass)
      ensures encodeCb == old(encodeCb) && decodeCb == old(decodeCb) && unusedBits == old(unusedBits)
    {
      var c := PrimOctets(value);
      if c.Err? {
        return Err(c.error);
      }
      bytes := Some(Octets(c.value));
      header := header.(length := |c.value|);
      var h := HeaderOctets(header, header.length);
      if h.Err? {
        return Err(h.error);
      }
      return Ok(h.value + c.value);
    }

    /** int_asn1_cons_encode_to (lines 719-745): records the children's
        total size as the length when the length octets are not cached and
        the length is definite. */
    method ConsEncodeTo() returns (r: Result<seq<byte>, Error>)
      requires Valid() && initialized && bytes.None?
      modifies this
      ensures Valid() && Repr == old(Repr)
      ensures r == old(ConsEncoding())
      ensures (old(value).List? && old(header).lengthBytes.None? && !old(header).isInfinite &&
               old(ItemsEncoding(value.children, Repr - {this})).Ok?) ==>
        header == old(header).(length := |old(ItemsEncoding(value.children, Repr - {this})).value|)
      ensures !(old(value).List? && old(header).lengthBytes.None? && !old(header).isInfinite &&
                old(ItemsEncoding(value.children, Repr - {this})).Ok?) ==>
        unchanged(this)
      ensures initialized && value == old(value) && bytes == old(bytes) && codec == old(codec)
      ensures klass == old(klass) && encodeCb == old(encodeCb) && decodeCb == old(decodeCb)
      ensures unusedBits == old(unusedBits)
    {
      if !value.List? {
        return Err(ValueNotEncodable);
      }
      var cs := value.children;
      if header.lengthBytes.None? && !header.isInfinite {
        var c := EncodeSubElems(cs, Repr - {this});
        if c.Err? {
          return Err(c.error);
        }
        header := header.(length := |c.value|);
        var h := HeaderOctets(header, header.length);
        if h.Err? {
          return Err(h.error);
        }
        return Ok(h.value + c.value);
      } else {
        var h := HeaderOctets(header, header.length);
        if h.Err? {
          return Err(h.error);
        }
        var c := EncodeSubElems(cs, Repr - {this});
        if c.Err? {
          return Err(c.error);
        }
        return Ok(h.value + c.value);
      }
    }

    /** int_asn1_encode_to (lines 617-636). The octets written are those
        Encoding() describes, and the caches it fills in leave that
        encoding as it was. */
    method EncodeTo() returns (r: Result<seq<byte>, Error>)
      requires Valid()
      modifies this
      ensures Valid() && Repr == old(Repr)
      ensures r == old(Encoding())
      ensures Encoding() == old(Encoding())
      ensures old(bytes).Some? || !old(initialized) ==> unchanged(this)
      ensures value == old(value) && codec == old(codec) && klass == old(klass)
      ensures encodeCb == old(encodeCb) && decodeCb == old(decodeCb) && unusedBits == old(unusedBits)
      ensures header == old(header).(length := header.length)
    {
      if !initialized {
        return Err(Uninitialized);
      }
      if bytes.Some? {
        var h := HeaderOctets(header, header.length);
        if h.Err? {
          return Err(h.error);
        }
        return Ok(h.value + ContentOctets(bytes.value));
      }
      match encodeCb
      case NoEncoder =>
        return Err(UnsetCallback);
      case ConsEncoder =>
        r := ConsEncodeTo();
      case PrimEncoder =>
        r := PrimEncodeTo();
      case DataEncoder =>
        if header.isConstructed {
          r := ConsEncodeTo();
        } else {
          r := PrimEncodeTo();
        }
    }

    // -------------------------------------------------------------------
    // Initializers for items created from scratch
    // -------------------------------------------------------------------

    /** int_asn1_data_initialize (lines 233-258): attaches a header with
        nothing cached, unless the item already has one. */
    method Initialize(tag: int, tagClass: TagClass, cons: bool, inf: bool, cb: EncodeCb, codecs: CodecTable)
      returns (err: Option<Error>)
      requires Valid()
      modifies this
      ensures Valid() && Repr == old(Repr)
      ensures old(initialized) ==> err == Some(AlreadyInitialized) && unchanged(this)
      ensures !old(initialized) ==>
        (err.None? && initialized && header == NewHeader(tag, tagClass, cons, inf) && bytes.None? &&
         codec == CodecFor(tag, tagClass, codecs) && encodeCb == cb && decodeCb == NoDecoder)
      ensures value == old(value) && klass == old(klass) && unusedBits == old(unusedBits)
    {
      if initialized {
        return Some(AlreadyInitialized);
      }
      initialized := true;
      header := NewHeader(tag, tagClass, cons, inf);
      bytes := None;
      codec := CodecFor(tag, tagClass, codecs);
      encodeCb := cb;
      decodeCb := NoDecoder;
      return None;
    }

    /** Stores a value without touching the header or the caches, as
        rb_ivar_set does for @value. */
    method AssignValue(v: Value)
      requires Valid()
      requires v.List? ==> forall i :: 0 <= i < |v.children| ==>
        v.children[i].Valid() && this !in v.children[i].Repr
      modifies this
      ensures Valid() && value == v
      ensures initialized == old(initialized) && klass == old(klass) && header == old(header)
      ensures bytes == old(bytes) && codec == old(codec) && unusedBits == old(unusedBits)
      ensures encodeCb == old(encodeCb) && decodeCb == old(decodeCb)
    {
      value := v;
      if v.List? {
        ReprOfContains(v.children);
        Repr := {this} + ReprOf(v.children);
      } else {
        Repr := {this};
      }
    }

    /** The objects of a sequence of items' representations. */
    static ghost function ReprOf(cs: seq<Asn1Data>): set<object>
      reads set i | 0 <= i < |cs| :: cs[i]
    {
      if cs == [] then {} else ReprOf(cs[..|cs| - 1]) + cs[|cs| - 1].Repr
    }

    static lemma {:induction false} ReprOfContains(cs: seq<Asn1Data>)
      ensures forall i :: 0 <= i < |cs| ==> cs[i].Repr <= ReprOf(cs)
    {
      if cs != [] {
        ReprOfContains(cs[..|cs| - 1]);
        forall i | 0 <= i < |cs| - 1 ensures cs[i].Repr <= ReprOf(cs) {
          assert cs[..|cs| - 1][i] == cs[i];
        }
      }
    }

    /** The body of krypt_asn1_data_initialize (lines 261-284), called with
        its declared parameters, for a given constructed bit: the tag checks, a header with the
        data encoder, then @value. */
    method DataInitializeWith(v: Value, vtag: Option<int>, vclass: TagClass, cons: bool, codecs: CodecTable)
      returns (err: Option<Error>)
      requires Valid() && !initialized
      requires v.List? ==> forall i :: 0 <= i < |v.children| ==>
        v.children[i].Valid() && this !in v.children[i].Repr
      modifies this
      ensures Valid()
      ensures vtag.None? ==> err == Some(TagNotInteger)
      ensures vtag.Some? && !TagAllowed(vtag.value, vclass) ==> err == Some(TagTooLarge)
      ensures err.Some? ==> unchanged(this)
      ensures err.None? <==> vtag.Some? && TagAllowed(vtag.value, vclass)
      ensures err.None? ==>
        (initialized && value == v && header == NewHeader(vtag.value, vclass, cons, false) &&
         bytes.None? && codec == CodecFor(vtag.value, vclass, codecs) && encodeCb == DataEncoder)
    {
      if vtag.None? {
        return Some(TagNotInteger);
      }
      if !TagAllowed(vtag.value, vclass) {
        return Some(TagTooLarge);
      }
      err := Initialize(vtag.value, vclass, cons, false, DataEncoder, codecs);
      AssignValue(v);
    }

    /** krypt_asn1_data_initialize (lines 261-284), called with its declared
        parameters, as written: the header is always primitive, so an array value cannot
        be encoded. */
    method DataInitialize(v: Value, vtag: Option<int>, vclass: TagClass, codecs: CodecTable)
      returns (err: Option<Error>)
      requires Valid() && !initialized
      requires v.List? ==> forall i :: 0 <= i < |v.children| ==>
        v.children[i].Valid() && this !in v.children[i].Repr
      modifies this
      ensures Valid()
      ensures vtag.None? ==> err == Some(TagNotInteger)
      ensures vtag.Some? && !TagAllowed(vtag.value, vclass) ==> err == Some(TagTooLarge)
      ensures err.Some? ==> unchanged(this)
      ensures err.None? <==> vtag.Some? && TagAllowed(vtag.value, vclass)
      ensures err.None? ==>
        (initialized && value == v && header == NewHeader(vtag.value, vclass, false, false) &&
         bytes.None? && codec == CodecFor(vtag.value, vclass, codecs) && encodeCb == DataEncoder)
      ensures err.None? ==> Encoding() == PrimEncoding()
      ensures err.None? && v.List? ==> Encoding() == Err(ValueNotEncodable)
    {
      err := DataInitializeWith(v, vtag, vclass, DataConstructedAsWritten(v), codecs);
    }

    /** krypt_asn1_data_initialize with the constructed bit computed as
        value= computes it: an array value makes a constructed item, encoded as one. */
    method DataInitializeCorrected(v: Value, vtag: Option<int>, vclass: TagClass, codecs: CodecTable)
      returns (err: Option<Error>)
      requires Valid() && !initialized
      requires v.List? ==> forall i :: 0 <= i < |v.children| ==>
        v.children[i].Valid() && this !in v.children[i].Repr
      modifies this
      ensures Valid()
      ensures vtag.None? ==> err == Some(TagNotInteger)
      ensures vtag.Some? && !TagAllowed(vtag.value, vclass) ==> err == Some(TagTooLarge)
      ensures err.Some? ==> unchanged(this)
      ensures err.None? <==> vtag.Some? && TagAllowed(vtag.value, vclass)
      ensures err.None? ==>
        (initialized && value == v && header == NewHeader(vtag.value, vclass, v.List?, false) &&
         bytes.None? && codec == CodecFor(vtag.value, vclass, codecs) && encodeCb == DataEncoder)
      ensures err.None? ==> Encoding() == (if v.List? then ConsEncoding() else PrimEncoding())
    {
      err := DataInitializeWith(v, vtag, vclass, DataConstructed(v), codecs);
    }

    /** int_asn1_default_initialize (lines 287-327), shared by the
        constructors of the universal types: the type's own codec is kept
        whatever the tag and tag class. */
    method DefaultInitialize(r: Resolved, defaultTag: nat, cons: bool, cb: EncodeCb, codecs: CodecTable)
      returns (err: Option<Error>)
      requires Valid() && !initialized
      requires r.value.List? ==> forall i :: 0 <= i < |r.value.children| ==>
        r.value.children[i].Valid() && this !in r.value.children[i].Repr
      modifies this
      ensures Valid()
      ensures r.tag.None? ==> err == Some(TagNotInteger)
      ensures r.tag.Some? && !TagAllowed(r.tag.value, r.tagClass) ==> err == Some(TagTooLarge)
      ensures err.Some? ==> unchanged(this)
      ensures err.None? <==> r.tag.Some? && TagAllowed(r.tag.value, r.tagClass)
      ensures err.None? ==>
        (initialized && value == r.value && header == NewHeader(r.tag.value, r.tagClass, cons, false) &&
         bytes.None? && encodeCb == cb &&
         codec == (if defaultTag <= MaxUniversalTag then Some(defaultTag) else CodecFor(r.tag.value, r.tagClass, codecs)))
      ensures klass == old(klass) && unusedBits == old(unusedBits)
    {
      if r.tag.None? {
        return Some(TagNotInteger);
      }
      if !TagAllowed(r.tag.value, r.tagClass) {
        return Some(TagTooLarge);
      }
      err := Initialize(r.tag.value, r.tagClass, cons, false, cb, codecs);
      if defaultTag <= MaxUniversalTag {
        codec := Some(defaultTag);
      }
      AssignValue(r.value);
    }

    /** krypt_asn1_end_of_contents_initialize (lines 330-340), called with
        its declared parameter. */
    method EndOfContentsInitialize(codecs: CodecTable) returns (err: Option<Error>)
      requires Valid() && !initialized
      modifies this
      ensures Valid() && err.None?
      ensures initialized && value == Nil && header == NewHeader(0, Universal, false, false)
      ensures encodeCb == PrimEncoder && codec == Some(0)
    {
      err := DefaultInitialize(Resolved(Nil, Some(0), Universal), 0, false, PrimEncoder, codecs);
    }

    /** krypt_asn1_null_initialize (lines 343-373). */
    method NullInitialize(a: CtorArgs, codecs: CodecTable) returns (err: Option<Error>)
      requires Valid() && !initialized && ArgsWellFormed(a)
      modifies this
      ensures Valid()
      ensures NullArgs(a).Err? ==> err == Some(NullArgs(a).error) && unchanged(this)
      ensures err.Some? ==> unchanged(this)
      ensures err.None? ==>
        (NullArgs(a).Ok? && initialized && value == Nil &&
         header == NewHeader(NullArgs(a).value.tag.value, NullArgs(a).value.tagClass, false, false) &&
         encodeCb == PrimEncoder && codec == Some(5))
    {
      var r := NullArgs(a);
      if r.Err? {
        return Some(r.error);
      }
      err := DefaultInitialize(r.value, 5, false, PrimEncoder, codecs);
    }

    /** krypt_asn1_bit_string_initialize (lines 376-401): also sets
        @unused_bits to 0. */
    method BitStringInitialize(a: CtorArgs, codecs: CodecTable) returns (err: Option<Error>)
      requires Valid() && !initialized && ArgsWellFormed(a)
      requires a.value.List? ==> forall i :: 0 <= i < |a.value.children| ==>
        a.value.children[i].Valid() && this !in a.value.children[i].Repr
      modifies this
      ensures Valid()
      ensures BitStringArgs(a).Err? ==> err == Some(BitStringArgs(a).error) && unchanged(this)
      ensures err.Some? ==> unchanged(this)
      ensures err.None? ==>
        (BitStringArgs(a).Ok? && initialized && value == a.value &&
         header == NewHeader(BitStringArgs(a).value.tag.value, BitStringArgs(a).value.tagClass, false, false) &&
         encodeCb == PrimEncoder && codec == Some(3) && unusedBits == Some(0))
    {
      var r := BitStringArgs(a);
      if r.Err? {
        return Some(r.error);
      }
      err := DefaultInitialize(r.value, 3, false, PrimEncoder, codecs);
      if err.None? {
        unusedBits := Some(0);
      }
    }

    /** The constructors KRYPT_ASN1_DEFINE_CTOR generates (lines 403-442):
        SEQUENCE and SET are constructed and use the constructed encoder,
        the others are primitive. */
    method TypedInitialize(a: CtorArgs, t: nat, codecs: CodecTable) returns (err: Option<Error>)
      requires Valid() && !initialized && ArgsWellFormed(a) && IsTypedCtorTag(t)
      requires a.value.List? ==> forall i :: 0 <= i < |a.value.children| ==>
        a.value.children[i].Valid() && this !in a.value.children[i].Repr
      modifies this
      ensures Valid()
      ensures TypedArgs(a, t).Err? ==> err == Some(TypedArgs(a, t).error) && unchanged(this)
      ensures err.Some? ==> unchanged(this)
      ensures err.None? ==>
        (TypedArgs(a, t).Ok? && TypedArgs(a, t).value.tag.Some? && initialized && value == a.value &&
         header == NewHeader(TypedArgs(a, t).value.tag.value, TypedArgs(a, t).value.tagClass, t == 16 || t == 17, false) &&
         encodeCb == (if t == 16 || t == 17 then ConsEncoder else PrimEncoder) && codec == Some(t))
    {
      var r := TypedArgs(a, t);
      if r.Err? {
        return Some(r.error);
      }
      var cons := t == 16 || t == 17;
      err := DefaultInitialize(r.value, t, cons, if cons then ConsEncoder else PrimEncoder, codecs);
    }

    // -------------------------------------------------------------------
    // Setters
    // -------------------------------------------------------------------

    /** krypt_asn1_data_set_tag (lines 482-502): a new tag drops the cached
        identifier octets and the header length and recomputes the codec;
        the same tag changes nothing. */
    method SetTag(tag: int, codecs: CodecTable) returns (err: Option<Error>)
      requires Valid()
      modifies this
      ensures Valid() && Repr == old(Repr)
      ensures !old(initialized) ==> err == Some(Uninitialized) && unchanged(this)
      ensures old(initialized) && old(header).tag == tag ==> err.None? && unchanged(this)
      ensures old(initialized) && old(header).tag != tag ==>
        (err.None? && header == old(header).(tag := tag, tagBytes := None, headerLength := 0) &&
         codec == CodecFor(tag, header.tagClass, codecs))
      ensures initialized == old(initialized) && klass == old(klass) && bytes == old(bytes) && value == old(value)
      ensures encodeCb == old(encodeCb) && decodeCb == old(decodeCb) && unusedBits == old(unusedBits)
    {
      if !initialized {
        return Some(Uninitialized);
      }
      if header.tag == tag {
        return None;
      }
      header := header.(tag := tag, tagBytes := None, headerLength := 0);
      codec := CodecFor(tag, header.tagClass, codecs);
      return None;
    }

    /** krypt_asn1_data_set_tag_class (lines 510-529): a new class drops
        the cached identifier octets and the header length; the codec is
        kept. */
    method SetTagClass(tagClass: TagClass) returns (err: Option<Error>)
      requires Valid()
      modifies this
      ensures Valid() && Repr == old(Repr)
      ensures !old(initialized) ==> err == Some(Uninitialized) && unchanged(this)
      ensures old(initialized) && old(header).tagClass == tagClass ==> err.None? && unchanged(this)
      ensures old(initialized) && old(header).tagClass != tagClass ==>
        (err.None? && header == old(header).(tagClass := tagClass, tagBytes := None, headerLength := 0))
      ensures initialized == old(initialized) && klass == old(klass) && bytes == old(bytes) && value == old(value)
      ensures codec == old(codec) && encodeCb == old(encodeCb) && decodeCb == old(decodeCb)
      ensures unusedBits == old(unusedBits)
    {
      if !initialized {
        return Some(Uninitialized);
      }
      if header.tagClass == tagClass {
        return None;
      }
      header := header.(tagClass := tagClass, tagBytes := None, headerLength := 0);
      return None;
    }

    /** krypt_asn1_data_set_inf_length (lines 537-556): switching between
        definite and indefinite length drops the cached length octets, the
        length and the header length, and nothing else. */
    method SetInfiniteLength(inf: bool) returns (err: Option<Error>)
      requires Valid()
      modifies this
      ensures Valid() && Repr == old(Repr)
      ensures !old(initialized) ==> err == Some(Uninitialized) && unchanged(this)
      ensures old(initialized) && old(header).isInfinite == inf ==> err.None? && unchanged(this)
      ensures old(initialized) && old(header).isInfinite != inf ==>
        (err.None? &&
         header == old(header).(isInfinite := inf, lengthBytes := None, length := 0, headerLength := 0))
      ensures initialized == old(initialized) && klass == old(klass) && bytes == old(bytes) && value == old(value)
      ensures codec == old(codec) && encodeCb == old(encodeCb) && decodeCb == old(decodeCb)
      ensures unusedBits == old(unusedBits)
    {
      if !initialized {
        return Some(Uninitialized);
      }
      if header.isInfinite == inf {
        return None;
      }
      header := header.(isInfinite := inf, lengthBytes := None, length := 0, headerLength := 0);
      return None;
    }

    /** krypt_asn1_data_set_value (lines 586-606): the value is stored
        first; then the cached content and length are dropped, the
        constructed bit follows whether the value is an array, and the
        cached identifier octets are dropped only if that bit changed. */
    method SetValue(v: Value) returns (err: Option<Error>)
      requires Valid()
      requires v.List? ==> forall i :: 0 <= i < |v.children| ==>
        v.children[i].Valid() && this !in v.children[i].Repr
      modifies this
      ensures Valid() && value == v
      ensures !old(initialized) ==> err == Some(Uninitialized) && header == old(header) && bytes == old(bytes)
      ensures old(initialized) ==>
        (err.None? && bytes.None? &&
         header == old(header).(isConstructed := v.List?, lengthBytes := None, length := 0, headerLength := 0,
           tagBytes := if old(header).isConstructed == v.List? then old(header).tagBytes else None))
      ensures initialized == old(initialized) && klass == old(klass) && codec == old(codec)
      ensures encodeCb == old(encodeCb) && decodeCb == old(decodeCb) && unusedBits == old(unusedBits)
    {
      AssignValue(v);
      if !initialized {
        return Some(Uninitialized);
      }
      bytes := None;
      header := header.(lengthBytes := None, length := 0, headerLength := 0);
      if header.isConstructed != v.List? {
        header := header.(isConstructed := v.List?, tagBytes := None, headerLength := 0);
      }
      return None;
    }

    // -------------------------------------------------------------------
    // Lazy decoding
    // -------------------------------------------------------------------

    /** The cached length is the length of the cached content, or is not
        used because the length octets are cached or the length is
        indefinite. */
    predicate LengthAgrees()
      reads this
    {
      header.lengthBytes.Some? || header.isInfinite ||
      (bytes.Some? && header.length == |ContentOctets(bytes.value)|)
    }

    /** int_asn1_cons_value_decode (lines 679-703): one child item per item
        of the cached content, in order; then the cached content is
        dropped while the cached length octets stay. */
    method ConsValueDecode(codecs: CodecTable) returns (r: Result<seq<Asn1Data>, Error>)
      requires Valid() && initialized && bytes.Some?
      modifies this
      ensures Valid() && Repr == old(Repr)
      ensures !old(bytes).value.Items? ==> r == Err(ContentNotSplit)
      ensures r.Err? ==> unchanged(this)
      ensures old(bytes).value.Items? ==>
        (r.Ok? <==> forall i :: 0 <= i < |old(bytes).value.items| ==>
          TagAllowed(old(bytes).value.items[i].header.tag, old(bytes).value.items[i].header.tagClass))
      ensures r.Ok? ==>
        (bytes.None? && old(bytes).value.Items? && |r.value| == |old(bytes).value.items| &&
         forall i :: 0 <= i < |r.value| ==>
           fresh(r.value[i]) && r.value[i].Valid() && r.value[i].Repr == {r.value[i]} &&
           r.value[i].IsParsedFrom(old(bytes).value.items[i], codecs))
      ensures initialized && value == old(value) && header == old(header) && codec == old(codec)
      ensures klass == old(klass) && encodeCb == old(encodeCb) && decodeCb == old(decodeCb)
      ensures unusedBits == old(unusedBits)
    {
      if !bytes.value.Items? {
        return Err(ContentNotSplit);
      }
      var items := bytes.value.items;
      var children: seq<Asn1Data> := [];
      var i := 0;
      while i < |items|
        invariant 0 <= i <= |items| && |children| == i
        invariant unchanged(this)
        invariant forall j :: 0 <= j < i ==> TagAllowed(items[j].header.tag, items[j].header.tagClass)
        invariant forall j :: 0 <= j < i ==>
          fresh(children[j]) && children[j].Valid() && children[j].Repr == {children[j]} &&
          children[j].IsParsedFrom(items[j], codecs)
      {
        var c := FromParsed(items[i], codecs);
        if c.Err? {
          return Err(c.error);
        }
        children := children + [c.value];
        i := i + 1;
      }
      bytes := None;
      return Ok(children);
    }

    /** krypt_asn1_data_get_value (lines 567-584): a nil value with cached
        content is decoded through the decode callback and stored. */
    method GetValue(codecs: CodecTable) returns (r: Result<Value, Error>)
      requires Valid()
      modifies this
      ensures Valid()
      ensures old(value) != Nil ==> r == Ok(old(value)) && unchanged(this)
      ensures old(value) == Nil && !old(initialized) ==> r == Err(Uninitialized) && unchanged(this)
      ensures old(value) == Nil && old(initialized) && old(bytes).None? ==> r == Ok(Nil) && unchanged(this)
      ensures r.Err? ==> unchanged(this)
      ensures r.Ok? ==> value == r.value
      ensures (old(value) == Nil && old(initialized) && old(bytes).Some? &&
               old(DecoderShape(decodeCb, header.isConstructed)).None?) ==>
        r == Err(UnsetCallback)
      ensures (old(value) == Nil && old(initialized) && old(bytes).Some? &&
               old(DecoderShape(decodeCb, header.isConstructed)) == Some(false)) ==>
        (r == Ok(Prim(ContentOctets(old(bytes).value))) && bytes == old(bytes))
      ensures (old(value) == Nil && old(initialized) && old(bytes).Some? &&
               old(DecoderShape(decodeCb, header.isConstructed)) == Some(true) && r.Ok?) ==>
        (r.value.List? && bytes.None? && old(bytes).value.Items? &&
         |r.value.children| == |old(bytes).value.items| &&
         forall i :: 0 <= i < |r.value.children| ==>
           fresh(r.value.children[i]) && r.value.children[i].IsParsedFrom(old(bytes).value.items[i], codecs))
      ensures (old(value) == Nil && old(initialized) && old(bytes).Some? &&
               old(DecoderShape(decodeCb, header.isConstructed)) == Some(true) &&
               old(EncoderShape(encodeCb, header.isConstructed)) == Some(true) && old(LengthAgrees()) && r.Ok?) ==>
        Encoding() == old(Encoding())
      ensures header == old(header) && codec == old(codec) && encodeCb == old(encodeCb) && decodeCb == old(decodeCb)
    {
      if value != Nil {
        return Ok(value);
      }
      if !initialized {
        return Err(Uninitialized);
      }
      if bytes.None? {
        return Ok(Nil);
      }
      var shape := DecoderShape(decodeCb, header.isConstructed);
      if shape.None? {
        return Err(UnsetCallback);
      }
      if !shape.value {
        // int_asn1_prim_value_decode (lines 751-764)
        var v := Prim(ContentOctets(bytes.value));
        AssignValue(v);
        return Ok(v);
      }
      ghost var content := bytes.value;
      var cs := ConsValueDecode(codecs);
      if cs.Err? {
        return Err(cs.error);
      }
      AssignValue(List(cs.value));
      ItemsEncodingOfParsed(cs.value, Repr - {this}, content.items, codecs);
      return Ok(List(cs.value));
    }
  }
}
