# krypt-core ASN.1 core, modelled in Dafny

This project models the native core of krypt-core. That core has three parts:

- **Hex codec** (`krypt_hex.c`). It encodes octets as lower-case hex and decodes hex in either case. It refuses odd lengths and non-digits, and it guards the buffer size against `SSIZE_MAX`.
- **`Krypt::ASN1::ASN1Data` objects** (`krypt_asn1.c`).
  - They are created from parsed BER/DER items (`krypt_asn1_data_new`) or by the Ruby constructors of the universal types.
  - They carry a header, a lazily decoded value and the cached content octets.
  - They are re-encoded by `int_asn1_encode_to`. The cached octets are reused when present; otherwise the value is encoded and the length computed.
  - Their setters (`tag=`, `tag_class=`, `infinite_length=`, `value=`) drop the cached encoding.
  - `krypt_asn1_data_get_value` decodes the value on first access.
- **Template parser** (`krypt_asn1_template_parser.c`). It matches parsed items against the field definitions of a `Krypt::ASN1::Template` class, one codec at a time: PRIMITIVE, SEQUENCE/SET, SEQUENCE OF/SET OF, nested TEMPLATE. It records each field in the instance's variables, and it decodes lazily when a field is first read.

The input side is modelled at item level. A parsed item (module `Tlv`) is its header record plus its content. The record keeps the identifier and length octets the header was read from. A primitive's content is its value octets. A constructed item's content is the sequence of items inside it, including the END-OF-CONTENTS item of an indefinite length. The octet encoding follows ITU-T X.690 (sections 8.1.2 to 8.1.5).

Files:

- `wrappers.dfy`: `Option`, `Result`, `byte`.
- `hex.dfy`: module `Hex`. Specification functions `Encode` and `Decode`, plus the C loops as methods over arrays.
- `tlv.dfy`: module `Tlv`, parsed items and their octets.
- `asn1_data.dfy`: module `Asn1Data`, with class `Asn1Data` for the Ruby object and its C struct.
- `template_parser.dfy`: module `TemplateParser`.
  - Matching and parsing are pure functions of the instance variables.
  - Class `Instance` holds the instance variables and the template. Its methods run the C loops and are proved equal to those functions.
- Where a row under "## Findings" shows the code to be wrong, the model keeps the code as written in a member named `…AsWritten` (or exhibited by a lemma), and the rest of the model, the class methods included, uses the corrected definition. The rows below say "corrected" where that is so.

## Model

| member | source | states |
|---|---|---|
| Hex.InvTable | ext/krypt/core/krypt_hex.c:21-30 | the inverse table has an entry for every octet up to KRYPT_HEX_INV_MAX ('f') |
| Hex.InvTableRange | ext/krypt/core/krypt_hex.c:20-28 | every entry of the inverse table is -1 or a digit value 0..15 |
| Hex.HexValue | ext/krypt/core/krypt_hex.c:60-64 | the table lookup of one octet yields -1 or a nibble |
| Hex.HexValueIsDigitValue | ext/krypt/core/krypt_hex.c:60-64 | the lookup is non-negative exactly for the hex digits of either case, and then yields the digit's value |
| Hex.HexValueOfTable | ext/krypt/core/krypt_hex.c:20-28 | the encode table and the inverse table are inverse on nibbles; the encode table holds lower-case digits only |
| Hex.TableOfDigit | ext/krypt/core/krypt_hex.c:20-28 | encoding a digit's value gives back the digit in lower case |
| Hex.Encode | ext/krypt/core/krypt_hex.c:34-48 | the encoding is twice as long as its input |
| Hex.EncodeAt | ext/krypt/core/krypt_hex.c:44-45 | octet i becomes the digits of its high and low nibbles, at positions 2i and 2i+1 |
| Hex.EncodeIsLowercase | ext/krypt/core/krypt_hex.c:20 | every octet of an encoding is a lower-case hex digit |
| Hex.IntHexEncode | ext/krypt/core/krypt_hex.c:34-48 | the loop fills the preallocated buffer with exactly the encoding |
| Hex.KryptHexEncode | ext/krypt/core/krypt_hex.c:91-107 | returns -1 exactly when the input exceeds SSIZE_MAX/2 octets; otherwise returns the length 2n and the encoding |
| Hex.DecodePairs | ext/krypt/core/krypt_hex.c:50-78 | decoding n pairs yields n octets when it succeeds |
| Hex.DecodePairSpec | ext/krypt/core/krypt_hex.c:58-75 | a pair decodes exactly when both octets are hex digits, to 16 times the first digit's value plus the second's |
| Hex.DecodePairsFailureSticks | ext/krypt/core/krypt_hex.c:58-75 | once a pair fails, decoding any longer prefix fails |
| Hex.IntHexDecode | ext/krypt/core/krypt_hex.c:50-78 | the loop succeeds exactly when every pair decodes, and then the buffer holds the decoded octets |
| Hex.KryptHexDecode | ext/krypt/core/krypt_hex.c:124-143 | returns -1 exactly when the input is not valid hex; otherwise returns half the length and the decoded octets |
| Hex.DecodePairsSpec | ext/krypt/core/krypt_hex.c:50-78 | n pairs decode exactly when the first 2n octets are digits; octet i is the value of digits 2i and 2i+1 |
| Hex.DecodeSpec | ext/krypt/core/krypt_hex.c:110-143 | a buffer decodes exactly when it has even length and holds only hex digits; the result has half the length |
| Hex.DecodePairsOfEncode | ext/krypt/core/krypt_hex.c:34-78 | decoding the first n pairs of an encoding gives back the first n octets |
| Hex.DecodeEncode | ext/krypt/core/krypt_hex.c:91-143 | decoding an encoding gives back the input |
| Hex.EncodeDecode | ext/krypt/core/krypt_hex.c:91-143 | encoding a decoded buffer gives back the input in lower case |
| Hex.DigitNibbles | ext/krypt/core/krypt_hex.c:44-45 | the nibbles of a decoded pair re-encode to the pair's digits in lower case |
| Asn1Data.CodecForAsWritten | ext/krypt/core/krypt_asn1.c:98-114 | as written: the lookup reads outside the codec table exactly for a negative UNIVERSAL tag |
| Asn1Data.NegativeUniversalTagReadsOutsideTable | ext/krypt/core/krypt_asn1.c:98-114 | as written, tag -1 of class UNIVERSAL indexes the codec table at -1 |
| Asn1Data.CodecFor | ext/krypt/core/krypt_asn1.c:98-114 | a codec is found exactly for a UNIVERSAL tag 0..30 with a table entry; it is that tag's entry (corrected, see Findings) |
| Asn1Data.CodecForAgrees | ext/krypt/core/krypt_asn1.c:98-114 | wherever the as-written lookup stays in the table, it agrees with the corrected one |
| Asn1Data.KlassForParsedAsWritten | ext/krypt/core/krypt_asn1.c:193-207 | as written, no Ruby class is chosen exactly for a UNIVERSAL primitive whose info entry has no class |
| Asn1Data.RealHasNoClass | ext/krypt/core/krypt_asn1.c:196-198 | as written, the REAL item 09 00 gets no Ruby class |
| Asn1Data.KlassForParsed | ext/krypt/core/krypt_asn1.c:193-207 | corrected: agrees with the code wherever it picks a class; a UNIVERSAL primitive becomes its type's class, or ASN1Data where the infos table has none; a tagged item becomes ASN1Data; never ASN1Primitive itself |
| Asn1Data.TaggedItemHasNoEncoder | ext/krypt/core/krypt_asn1.c:203-206 | as written, a non-UNIVERSAL parsed item gets a decoder of its shape but no encoder |
| Asn1Data.CallbacksForParsed | ext/krypt/core/krypt_asn1.c:193-207 | keeps the code's callbacks for UNIVERSAL items (corrected: tagged items get int_asn1_data_encode_to, see Findings) |
| Asn1Data.CallbacksForParsedAgree | ext/krypt/core/krypt_asn1.c:193-207 | every parsed item gets an encoder, and it matches the item's constructed bit |
| Asn1Data.Base128 | ext/krypt/core/krypt_asn1.c:719-745 | the subsequent identifier octets carry the continuation bit on every octet but the last (X.690 section 8.1.2.4) |
| Asn1Data.Base128MoreValue | ext/krypt/core/krypt_asn1.c:719-745 | the leading base-128 digits, continuation bits removed, denote the number they were made from |
| Asn1Data.Base128ValueOfBase128 | ext/krypt/core/krypt_asn1.c:719-745 | the subsequent identifier octets, read seven bits at a time, denote the tag |
| Asn1Data.IdentifierOctets | ext/krypt/core/krypt_asn1.c:719-745 | a negative tag has no encoding; otherwise the first octet carries the class, the constructed bit and the low tag or 31 followed by the base-128 tag |
| Asn1Data.IdentifierOctetsTag | ext/krypt/core/krypt_asn1.c:719-745 | the tag reads back from its identifier octets, in both the low and the high tag-number form |
| Asn1Data.BigEndian | ext/krypt/core/krypt_asn1.c:728-742 | the long-form length has no leading zero octet |
| Asn1Data.BigEndianValue | ext/krypt/core/krypt_asn1.c:728-742 | the long-form length octets read back as the length |
| Asn1Data.LengthOctets | ext/krypt/core/krypt_asn1.c:728-742 | indefinite is 0x80; below 128 one octet; otherwise 0x80+k and k big-endian octets, refused beyond 126 |
| Asn1Data.PrimOctets | ext/krypt/core/krypt_asn1.c:766-781 | a primitive encoding fails exactly for a list value |
| Asn1Data.NullArgs | ext/krypt/core/krypt_asn1.c:343-365 | ASN1Null.new accepts at most three arguments with a nil value, and no class without a tag; tag 5 and UNIVERSAL by default |
| Asn1Data.BitStringArgs | ext/krypt/core/krypt_asn1.c:376-393 | ASN1BitString.new accepts one to three arguments, and no class without a tag; tag 3 and UNIVERSAL by default |
| Asn1Data.TypedArgs | ext/krypt/core/krypt_asn1.c:403-442 | a universal type's constructor accepts one to three arguments; with the value alone it uses the type's tag and UNIVERSAL |
| Asn1Data.HeaderOctets | ext/krypt/core/krypt_asn1.c:719-781 | cached header octets are reused; a negative tag without them cannot be encoded; an indefinite length ignores the content length |
| Asn1Data.Asn1Data.Alloc | ext/krypt/core/krypt_asn1.c:223-230 | a fresh object is uninitialised, without value, codec or callbacks |
| Asn1Data.Asn1Data.Parsed | ext/krypt/core/krypt_asn1.c:172-215 | an object made from a parsed item keeps its header, content, codec, class and callbacks (corrected: the class, callbacks and codec lookup of the Findings for krypt_asn1.c:196-206 and 98-114) |
| Asn1Data.Asn1Data.FromParsed | ext/krypt/core/krypt_asn1.c:172-215 | fails exactly for a UNIVERSAL tag above 30; otherwise yields a fresh object made from the item (corrected class, callbacks and codec lookup, see Findings) |
| Asn1Data.Asn1Data.Decode | ext/krypt/core/krypt_asn1.c:785-795 | empty input is a premature end; otherwise the first item is wrapped when its tag is allowed (corrected class, callbacks and codec lookup, see Findings) |
| Asn1Data.Asn1Data.ItemsEncodingErrSticks | ext/krypt/core/krypt_asn1.c:705-717 | once a child fails to encode, encoding more children fails the same way |
| Asn1Data.Asn1Data.ItemsEncodingOk | ext/krypt/core/krypt_asn1.c:705-717 | children encode exactly when each child encodes |
| Asn1Data.Asn1Data.ItemsEncodingPrefix | ext/krypt/core/krypt_asn1.c:705-717 | the encoding of the first children is a prefix of the whole |
| Asn1Data.Asn1Data.ItemsEncodingAt | ext/krypt/core/krypt_asn1.c:705-717 | child k's encoding sits right after those of the children before it |
| Asn1Data.Asn1Data.ItemsEncodingInOrder | ext/krypt/core/krypt_asn1.c:705-717 | the children's encodings are laid out in order, each after its predecessors |
| Asn1Data.Asn1Data.ParsedEncoding | ext/krypt/core/krypt_asn1.c:172-215 | re-encoding an unmodified parsed item gives back the octets it was read from |
| Asn1Data.Asn1Data.ItemsEncodingOfParsed | ext/krypt/core/krypt_asn1.c:679-717 | children parsed from items encode to those items' octets |
| Asn1Data.Asn1Data.EncodeSubElems | ext/krypt/core/krypt_asn1.c:705-717 | the loop writes the children's encodings in order, or fails at the first child that fails |
| Asn1Data.Asn1Data.PrimEncodeTo | ext/krypt/core/krypt_asn1.c:766-781 | writes header and content octets, caching the content and its length; a list value fails and changes nothing |
| Asn1Data.Asn1Data.ConsEncodeTo | ext/krypt/core/krypt_asn1.c:719-745 | writes the header and the children in order; computes and records a definite length when none is cached |
| Asn1Data.Asn1Data.EncodeTo | ext/krypt/core/krypt_asn1.c:617-636 | the octets written are the object's encoding, and writing does not change what a later encoding writes |
| Asn1Data.Asn1Data.Initialize | ext/krypt/core/krypt_asn1.c:233-258 | a second initialisation fails and changes nothing; the first attaches a new header, a codec and the encoder (corrected codec lookup of the Finding for krypt_asn1.c:98-114) |
| Asn1Data.Asn1Data.AssignValue | ext/krypt/core/krypt_asn1.c:586-606 | stores the value and changes nothing else |
| Asn1Data.DataConstructedAsWritten | ext/krypt/core/krypt_asn1.c:274 | as written, comparing the int from rb_respond_to with Qtrue never sets the constructed bit |
| Asn1Data.DataConstructed | ext/krypt/core/krypt_asn1.c:599 | corrected: the constructed bit is set exactly for an array value, as value= sets it |
| Asn1Data.Asn1Data.DataInitialize | ext/krypt/core/krypt_asn1.c:261-284 | as written, called with its declared parameters: krypt_asn1_data_initialize succeeds exactly for an integer tag allowed in its class; the header is then always primitive, so the item encodes as a primitive and an array value fails to encode |
| Asn1Data.Asn1Data.DataInitializeCorrected | ext/krypt/core/krypt_asn1.c:261-284 | corrected: the same checks and state, but an array value makes a constructed header and encodes as a constructed item |
| Asn1Data.Asn1Data.DefaultInitialize | ext/krypt/core/krypt_asn1.c:287-327 | succeeds exactly for an integer tag allowed in its class; the type's own codec is kept whatever the tag and tag class |
| Asn1Data.Asn1Data.EndOfContentsInitialize | ext/krypt/core/krypt_asn1.c:330-340 | called with its declared parameter, krypt_asn1_end_of_contents_initialize makes the primitive UNIVERSAL tag 0 with no value |
| Asn1Data.Asn1Data.NullInitialize | ext/krypt/core/krypt_asn1.c:343-373 | ASN1Null.new fails as its arguments do and changes nothing then; otherwise initialises with the resolved tag |
| Asn1Data.Asn1Data.BitStringInitialize | ext/krypt/core/krypt_asn1.c:376-401 | ASN1BitString.new fails as its arguments do; otherwise initialises and sets unused bits to 0 |
| Asn1Data.Asn1Data.TypedInitialize | ext/krypt/core/krypt_asn1.c:403-442 | the generated constructors fail as their arguments do; otherwise they initialise with the resolved tag and class |
| Asn1Data.Asn1Data.SetTag | ext/krypt/core/krypt_asn1.c:482-502 | fails on an uninitialised object; an equal tag changes nothing; a new tag drops the cached identifier octets and re-selects the codec (corrected codec lookup, see Findings) |
| Asn1Data.Asn1Data.SetTagClass | ext/krypt/core/krypt_asn1.c:510-529 | fails on an uninitialised object; an equal class changes nothing; a new class drops the cached identifier octets |
| Asn1Data.Asn1Data.SetInfiniteLength | ext/krypt/core/krypt_asn1.c:537-556 | fails on an uninitialised object; an equal flag changes nothing; switching drops the cached length octets |
| Asn1Data.Asn1Data.SetValue | ext/krypt/core/krypt_asn1.c:586-606 | stores the value and drops the cached content and length octets |
| Asn1Data.Asn1Data.ConsValueDecode | ext/krypt/core/krypt_asn1.c:679-703 | makes one child object per item of the cached content, in order, each parsed from its item (corrected class, callbacks and codec lookup for the children, see Findings) |
| Asn1Data.Asn1Data.GetValue | ext/krypt/core/krypt_asn1.c:567-584 | returns a set value unchanged; decodes the cached content once (primitive by its codec, constructed into children) and keeps the result (corrected class, callbacks and codec lookup for the children, see Findings) |
| TemplateParser.CtxForCodec | ext/krypt/core/krypt_asn1_template_parser.c:90-112 | every known codec has a context; only PRIMITIVE, SEQUENCE OF, SET OF, ANY and CHOICE have a decode step |
| TemplateParser.ExpectedTag | ext/krypt/core/krypt_asn1_template_parser.c:114-121 | the tag option if given, else the type's default tag |
| TemplateParser.ExpectedTagClass | ext/krypt/core/krypt_asn1_template_parser.c:123-130 | UNIVERSAL without tagging, CONTEXT_SPECIFIC for EXPLICIT or IMPLICIT, the named class otherwise |
| TemplateParser.MatchTagAndClass | ext/krypt/core/krypt_asn1_template_parser.c:132-171 | 1 exactly when the item has the expected tag and class, else 0 |
| TemplateParser.UntaggedMatch | ext/krypt/core/krypt_asn1_template_parser.c:114-145 | without tag options, an item matches exactly as the item's own header says |
| TemplateParser.SetDefault | ext/krypt/core/krypt_asn1_template_parser.c:288-301 | a named field is bound to its default; only that variable changes |
| TemplateParser.CheckOptionalOrDefault | ext/krypt/core/krypt_asn1_template_parser.c:303-327 | a mandatory field is an error; an optional one is skipped, with its default assigned if it has one |
| TemplateParser.TryMatchCons | ext/krypt/core/krypt_asn1_template_parser.c:271-286 | 1 exactly for a constructed item with the expected tag and class; 0 exactly for a primitive item in a mandatory field |
| TemplateParser.MatchCons | ext/krypt/core/krypt_asn1_template_parser.c:423-437 | matches exactly a constructed item with the expected tag and class; skips exactly an optional field that does not match |
| TemplateParser.MatchOutcomes | ext/krypt/core/krypt_asn1_template_parser.c:570-595 | a match has the expected tag and class (constructed for constructed codecs); only an optional field is skipped; only a default is ever assigned |
| TemplateParser.MandatoryNeverSkipped | ext/krypt/core/krypt_asn1_template_parser.c:303-327 | a mandatory field either matches or fails, and assigns nothing |
| TemplateParser.PrimMismatch | ext/krypt/core/krypt_asn1_template_parser.c:329-344 | a mismatched primitive fails if mandatory, else is skipped, with its default assigned if it has one |
| TemplateParser.StreamOf | ext/krypt/core/krypt_asn1_template_parser.c:496-504 | the items of a constructed content, whose octets are the content's |
| TemplateParser.ConsStream | ext/krypt/core/krypt_asn1_template_parser.c:173-198 | an implicitly tagged item is read as is; for an EXPLICIT one the stream is everything after the inner item's header, further items included |
| TemplateParser.ConsStreamOctets | ext/krypt/core/krypt_asn1_template_parser.c:173-198 | the items read are the octets of the value inside, not the explicit wrapper |
| TemplateParser.PrimOctets | ext/krypt/core/krypt_asn1_template_parser.c:382-396 | without EXPLICIT tagging the decoder gets the content octets |
| TemplateParser.ExplicitPrimOctets | ext/krypt/core/krypt_asn1_template_parser.c:382-396 | with EXPLICIT tagging the decoder gets the content minus the inner item's header octets, further items included |
| TemplateParser.ParseAssign | ext/krypt/core/krypt_asn1_template_parser.c:346-357 | succeeds exactly for a named field, binding the item to its name |
| TemplateParser.ParseTemplate | ext/krypt/core/krypt_asn1_template_parser.c:597-625 | succeeds exactly for a named field whose type is a template class, binding a new unparsed instance |
| TemplateParser.FinishCons | ext/krypt/core/krypt_asn1_template_parser.c:541-551 | accepts exactly a walk that parsed at least min_size fields, left nothing unread, and for an indefinite length ended on END-OF-CONTENTS |
| TemplateParser.RestIsOptionalSpec | ext/krypt/core/krypt_asn1_template_parser.c:451-476 | a run-out input is accepted exactly when every remaining field is optional; then each default is assigned and nothing else changes |
| TemplateParser.WalkAccounts | ext/krypt/core/krypt_asn1_template_parser.c:508-539 | a walk parses at least one item per mandatory field, at most one per field, and leaves exactly the input after them |
| TemplateParser.ParseConsConsumesAll | ext/krypt/core/krypt_asn1_template_parser.c:478-568 | a successful parse of a SEQUENCE/SET took every item, at least min_size and every mandatory field, then exactly one END-OF-CONTENTS if indefinite (corrected, see Findings) |
| TemplateParser.ParseConsAgrees | ext/krypt/core/krypt_asn1_template_parser.c:478-568 | where content is non-empty and no item is left pending, the code as written agrees with the corrected parse |
| TemplateParser.EmptyContentRejectedAsWritten | ext/krypt/core/krypt_asn1_template_parser.c:506 | as written, a SEQUENCE/SET with no items never parses |
| TemplateParser.EmptySequenceOfOptionals | ext/krypt/core/krypt_asn1_template_parser.c:506 | 30 00 against SEQUENCE { flag BOOLEAN OPTIONAL }: rejected as written, accepted by the corrected parse |
| TemplateParser.TrailingItemDroppedAsWritten | ext/krypt/core/krypt_asn1_template_parser.c:508-551 | 30 05 02 01 01 04 00 against SEQUENCE { INTEGER, BOOLEAN OPTIONAL }: accepted as written, with the OCTET STRING silently dropped |
| TemplateParser.EndOfContentsDroppedAsWritten | ext/krypt/core/krypt_asn1_template_parser.c:508-551 | 30 80 02 01 01 00 00 against the same layout: rejected as written, accepted by the corrected parse |
| TemplateParser.DecodePrim | ext/krypt/core/krypt_asn1_template_parser.c:365-421 | an indefinite primitive is not implemented; success needs EXPLICIT tagging exactly for a constructed item and a decoder for the type's tag; the value is the decoder's octets |
| TemplateParser.DecodePrimTagging | ext/krypt/core/krypt_asn1_template_parser.c:365-421 | with a decoder for the tag: without EXPLICIT tagging an item decodes to its content exactly when primitive; with it, exactly when constructed and starting with an inner header |
| TemplateParser.ReadElementsSplits | ext/krypt/core/krypt_asn1_template_parser.c:648-680 | the elements read are a prefix of the stream, each of the element type; reading stops only at the end, an END-OF-CONTENTS, or a wrong element |
| TemplateParser.ReadElementsComplete | ext/krypt/core/krypt_asn1_template_parser.c:648-680 | a run of elements followed by nothing or END-OF-CONTENTS is read whole |
| TemplateParser.FinishConsOf | ext/krypt/core/krypt_asn1_template_parser.c:708-726 | accepts exactly a complete read, non-empty unless optional, closed by END-OF-CONTENTS if indefinite |
| TemplateParser.DecodeConsOfSpec | ext/krypt/core/krypt_asn1_template_parser.c:682-742 | a SEQUENCE OF/SET OF decodes to es exactly when its items are es, all of the element type, with one END-OF-CONTENTS if indefinite, and es is non-empty unless optional (corrected, see Findings) |
| TemplateParser.IndefiniteConsOfRejectedAsWritten | ext/krypt/core/krypt_asn1_template_parser.c:648-680 | as written, an indefinite-length SEQUENCE OF/SET OF never decodes |
| TemplateParser.IndefiniteSequenceOfIntegers | ext/krypt/core/krypt_asn1_template_parser.c:720-725 | 30 80 02 01 01 00 00 as SEQUENCE OF INTEGER: fails as written, decodes to the one INTEGER once corrected |
| TemplateParser.ParseStep | ext/krypt/core/krypt_asn1_template_parser.c:796-797 | a parsed SEQUENCE/SET is decoded and its octets freed; a primitive or list is parsed but not decoded; a failure changes no template (corrected, see Findings) |
| TemplateParser.DecodeStep | ext/krypt/core/krypt_asn1_template_parser.c:798-799 | decoding never touches the variables; a decoded primitive or list has its value; a failure changes no template (corrected, see Findings) |
| TemplateParser.DecodeSlot | ext/krypt/core/krypt_asn1_template_parser.c:815-818 | decoding a field keeps its item, definition and options, and an already decoded field is returned as is |
| TemplateParser.ParseDecodeCompletes | ext/krypt/core/krypt_asn1_template_parser.c:780-800 | after a successful parse and decode, the template is parsed and decoded, unless it is a template field (corrected, see Findings) |
| TemplateParser.GetParseDecodeIdempotent | ext/krypt/core/krypt_asn1_template_parser.c:802-827 | reading a field a second time returns the same value and changes nothing (corrected, see Findings) |
| TemplateParser.Instance.FromItem | ext/krypt/core/krypt_asn1_template_parser.c:831-848 | a new instance has no variables and an unparsed template over the item |
| TemplateParser.Instance.ParseDer | ext/krypt/core/krypt_asn1_template_parser.c:850-880 | yields an instance exactly for a class with a definition and non-empty input; it wraps the first item, unparsed |
| TemplateParser.Instance.RestIsOptionalInto | ext/krypt/core/krypt_asn1_template_parser.c:451-476 | the loop has the outcome and variables of the specification |
| TemplateParser.Instance.ParseFieldInto | ext/krypt/core/krypt_asn1_template_parser.c:519-524 | dispatches the field to its codec's parse, with the specification's outcome (corrected SEQUENCE/SET parse, see Findings) |
| TemplateParser.Instance.ParseConsInto | ext/krypt/core/krypt_asn1_template_parser.c:478-568 | the loop over the layout ends in the specification's outcome, count and variables (corrected parse of the Findings for krypt_asn1_template_parser.c:506 and 508-551) |
| TemplateParser.Instance.ReadElementsLoop | ext/krypt/core/krypt_asn1_template_parser.c:648-680 | the element loop reads exactly what the specification reads (for both the loop as written and, with stopAtEoc, the corrected loop that stops at END-OF-CONTENTS of the Finding for krypt_asn1_template_parser.c:648-680) |
| TemplateParser.Instance.ParseDecode | ext/krypt/core/krypt_asn1_template_parser.c:780-800 | parse then decode leaves exactly the specification's state (corrected SEQUENCE/SET parse and SEQUENCE OF decode, see Findings) |
| TemplateParser.Instance.DecodeElementsInto | ext/krypt/core/krypt_asn1_template_parser.c:682-742 | stores exactly the decoded list, and fails exactly when it fails (corrected SEQUENCE OF decode of the Finding for krypt_asn1_template_parser.c:648-680) |
| TemplateParser.Instance.GetParseDecode | ext/krypt/core/krypt_asn1_template_parser.c:802-827 | reading a field returns and leaves exactly what the specification does (corrected SEQUENCE/SET parse and SEQUENCE OF decode, see Findings) |

## Left out

- The Ruby bindings are not modelled: `Krypt::Hex` module functions (krypt_hex.c lines 183-233), method registration, argument conversion, GC marking and freeing. What they pass to the core is modelled as parameters.
- The header reader and the input stream are not part of this model (`krypt_asn1_next_header`, `krypt_asn1_get_value`, `krypt_asn1_decode_stream`, `krypt_instream_*`). Items are given already parsed, with the octets they came from.
- The per-type codecs (INTEGER, BOOLEAN, OBJECT IDENTIFIER, …) are not part of this model. A codec table says which tags have one, and a primitive value is modelled as its content octets. A codec decoder or encoder failing on malformed content is not modelled.
- `krypt_asn1_header_encode` is modelled by the X.690 identifier and length octets; the C routine itself is not part of this model.
- Errors are modelled as the error value or -1 the code returns. The message added by `krypt_error_add` and the Ruby exception class raised are not modelled.
- Sizes are unbounded: `SSIZE_MAX` and `SIZE_MAX` appear only where the hex guards test them.
- ANY and CHOICE: their parse and decode entries are stubs that return 0 in the code. They are modelled as failures.
- `int_decode_prim_inf`: an indefinite-length primitive raises NotImplementedError. It is modelled as the `NotImplemented` error only.
- An unknown codec: the C code dereferences the missing context. It is modelled as a failure.
- `krypt_definition_is_optional` is modelled as the field's `optional` flag. `tag_class_for_id` is modelled by the `Tagging` datatype (EXPLICIT, IMPLICIT or a class name).
- A primitive item whose octets are re-read as items is not modelled: `TemplateParser.StreamOf` yields no items for primitive content.
- In SEQUENCE OF, a TEMPLATE element type without a definition is modelled as a failure.
- In SEQUENCE OF, a tag-number element type fails, because an integer has no `include?`.
- `TemplateParser.DecodePrim`: a default tag outside 0..30 makes the C code read outside the decoder table. It is modelled as a failure.
- `TemplateParser.Instance.ParseDer`: the items after the first are ignored, as in the code. Aliasing between a top-level primitive template and its own instance variable is not modelled; the values read are the same.
- Concurrency and the Ruby VM's thread model are not modelled.
- `Asn1Data.Asn1Data.DataInitialize`, `Asn1Data.Asn1Data.DataInitializeCorrected`, `Asn1Data.Asn1Data.EndOfContentsInitialize`: these model the C functions called with their declared parameters. The functions are registered as `initialize` with arity -1 (krypt_asn1.c lines 1059, 1126, 1186, and 1193 through `KRYPT_ASN1_DEFINE_CLASS`), so the Ruby VM passes them `(argc, argv, self)` instead. That call through a mismatched signature is not modelled, and neither is what `ASN1Data.new`, `Primitive.new`, `Constructive.new` and `EndOfContents.new` do as registered.
- `Hex.HexValue`, `Hex.IntHexDecode`: the model assumes a signed C `char`. `int_hex_decode` keeps the table entry in a plain `char` (krypt_hex.c line 54) and rejects with `b < 0`. Where `char` is unsigned, -1 becomes 255 and a non-digit is not rejected.
- `Asn1Data.Asn1Data.ConsEncodeTo`: the children are encoded through the `Encoding` function, so the content octets a child's own encoder caches while being written are not stored in the child. The octets written are the same.
- Tags are unbounded integers: the range check of `NUM2INT` (a `RangeError` for a tag outside a C `int`) is not modelled.
- `Hex.KryptHexEncode`, `Hex.KryptHexDecode`: the NULL-pointer test on the input buffer has no counterpart, because a sequence is never NULL.
- Non-Symbol tag classes (`tag_class must be a Symbol`) and other Ruby argument types are not modelled; a tag class is one of the four `TagClass` values.
- The hex codec follows the code, which accepts upper-case digits on decode and always encodes in lower case.

## Findings

| source | as written | input that shows it | evidently intended | confidence | as-written member | corrected member |
|---|---|---|---|---|---|---|
| ext/krypt/core/krypt_asn1.c:203-206 | a parsed item of a non-UNIVERSAL class gets a decoder but no encoder, so re-encoding it after changing its value has no encoder | any context-specific item, e.g. a0 03 02 01 01 | every parsed item gets the encoder matching its constructed bit | not executed | Asn1Data.TaggedItemHasNoEncoder | Asn1Data.CallbacksForParsedAgree |
| ext/krypt/core/krypt_asn1.c:196-198 | a UNIVERSAL primitive whose info entry has no class (tags 7, 8, 9, 11, 13, 14, 15, 29) gets no Ruby class | REAL 09 00 | such an item gets some class; the class documentation (krypt_asn1.c:872-875) rules out ASN1Primitive itself and leaves a subclass of Primitive or ASN1Data; which one is the authors' choice, and the model takes ASN1Data | not executed | Asn1Data.RealHasNoClass | Asn1Data.KlassForParsed |
| ext/krypt/core/krypt_asn1.c:98-114 | a negative UNIVERSAL tag passes the `tag < 31` test and indexes the codec table at a negative position | tag -1, class UNIVERSAL | no codec for a negative tag | not executed | Asn1Data.NegativeUniversalTagReadsOutsideTable | Asn1Data.CodecForAgrees |
| ext/krypt/core/krypt_asn1_template_parser.c:506 | a SEQUENCE/SET with no items is rejected before the optional fields are considered | 30 00 against SEQUENCE { flag BOOLEAN OPTIONAL } | accepted, since every field is optional | not executed | TemplateParser.EmptySequenceOfOptionals | TemplateParser.ParseConsConsumesAll |
| ext/krypt/core/krypt_asn1_template_parser.c:508-551 | an item read but taken by no field is dropped: a trailing item is ignored, and a closing END-OF-CONTENTS is lost | 30 05 02 01 01 04 00 (accepted); 30 80 02 01 01 00 00 (rejected) against SEQUENCE { INTEGER, BOOLEAN OPTIONAL } | a left-over item is an error and END-OF-CONTENTS closes the value | not executed | TemplateParser.TrailingItemDroppedAsWritten | TemplateParser.ParseConsAgrees |
| ext/krypt/core/krypt_asn1_template_parser.c:648-680 | the element loop of an indefinite-length SEQUENCE OF reads until the stream ends, so the END-OF-CONTENTS item is taken (or rejected) as an element and the closing check of lines 720-725 fails; this assumes the stream decoders hand out END-OF-CONTENTS like any other item, and they are not part of this model | 30 80 02 01 01 00 00 as SEQUENCE OF INTEGER | the loop stops at END-OF-CONTENTS and the value decodes | not executed | TemplateParser.IndefiniteSequenceOfIntegers | TemplateParser.DecodeConsOfSpec |
| ext/krypt/core/krypt_asn1.c:274 | `rb_respond_to` returns the C int 1 or 0, which is compared with `Qtrue` (never 0 or 1), so krypt_asn1_data_initialize always makes a primitive header and `int_asn1_data_encode_to` (lines 608-615) encodes an array value as a primitive, which fails | a direct call krypt_asn1_data_initialize(self, [child], 0, :CONTEXT_SPECIFIC), then to_der | the constructed bit is set for an array value, as value= sets it at line 599, and the item encodes as a0 … | not executed | Asn1Data.Asn1Data.DataInitialize | Asn1Data.Asn1Data.DataInitializeCorrected |
