/**
 * The template parser of krypt-core
 * (ext/krypt/core/krypt_asn1_template_parser.c).
 *
 * A Ruby class that includes Krypt::ASN1::Template declares an ASN.1
 * layout (ITU-T X.680): a SEQUENCE or SET of named fields, each with a
 * codec, a type, and options (tag, tagging, OPTIONAL, DEFAULT). Parsing an
 * encoding of such a class walks the items of the encoding against the
 * fields in order. A field matches the current item when the item carries
 * the tag and tag class the field expects; an OPTIONAL field that does not
 * match is skipped, and a DEFAULT one receives its default value. Matched
 * items are stored in the instance's fields and decoded only when a field
 * is read.
 *
 * Items are the parsed TLVs of the Tlv module; reading headers from bytes
 * is not part of this model.
 */
module TemplateParser {
  import opened Wrappers
  import opened Tlv
  import Asn1Data

  /** UNIVERSAL tag numbers the parser uses (X.680 section 8.4). */
  const TagSequence: int := 16
  const TagSet: int := 17

  /** The codec of a definition: which match, parse and decode functions
      krypt_asn1_template_get_ctx_for_codec (lines 90-112) selects. */
  datatype Codec =
    | Primitive | Sequence | Set | TemplateCodec | SequenceOf | SetOf | Any | Choice
    | UnknownCodec

  /** The :tagging option: EXPLICIT, IMPLICIT or a tag class symbol;
      anything else has no tag class. */
  datatype Tagging = Explicit | Implicit | ClassTagging(c: TagClass) | OtherTagging

  /** A decoded value: the content octets of a primitive (the per-type
      codecs are not part of this model), or the items of a SEQUENCE OF or
      SET OF, in order. */
  datatype Val = Prim(octets: seq<byte>) | Elements(items: seq<Tlv>)

  /** The options of a field: explicit tag number, tagging, whether it is
      OPTIONAL (krypt_definition_is_optional), and its DEFAULT value. */
  datatype Options = Options(tag: Option<int>, tagging: Option<Tagging>, optional: bool, default: Option<Val>)

  /** The :type of a definition: the universal tag number of a primitive,
      a template class with its definition (None if it has none), or a
      class of the ASN1Data hierarchy. */
  datatype TypeRef =
    | TagNumber(n: int)
    | TemplateClass(typeDef: Option<Definition>)
    | DataClass(klass: Asn1Data.Klass)

  /** An ASN.1 definition: codec, field name, type, the layout of a
      SEQUENCE or SET, and its minimum number of parsed fields. */
  datatype Definition = Definition(
    codec: Codec,
    name: Option<string>,
    typ: Option<TypeRef>,
    layout: Layout,
    minSize: Option<int>)

  /** The :layout of a definition, if it has one. */
  datatype Layout = NoLayout | Fields(fields: seq<Field>)

  /** An entry of a layout: a definition with its options. */
  datatype Field = Field(def: Definition, options: Options)

  /** What an instance variable of the parsed object holds:
      - Parsed: a value template over a matched item, with the definition
        and options it matched, decoded on first read;
      - Default: a DEFAULT value that was assigned;
      - Nested: an instance of a template type, parsed on first read. */
  datatype Slot =
    | Parsed(item: Tlv, def: Definition, options: Options, value: Option<Val>)
    | Default(v: Val)
    | Nested(item: Tlv, typeDef: Definition, options: Options)

  type Ivars = map<string, Slot>

  // ---------------------------------------------------------------------
  // Expected tag and tag class
  // ---------------------------------------------------------------------

  /** int_expected_tag (lines 114-121): the tag option, else the type's
      own tag. */
  function ExpectedTag(tag: Option<int>, defaultTag: int): (r: int)
    ensures tag.Some? ==> r == tag.value
    ensures tag.None? ==> r == defaultTag
  {
    if tag.None? then defaultTag else tag.value
  }

  /** int_expected_tag_class (lines 123-130): UNIVERSAL without tagging;
      EXPLICIT and IMPLICIT tagging mean CONTEXT-SPECIFIC, a class symbol
      means that class, and anything else no class at all (-1). */
  function ExpectedTagClass(tagging: Option<Tagging>): (r: Option<TagClass>)
    ensures tagging.None? ==> r == Some(Universal)
    ensures tagging == Some(Explicit) || tagging == Some(Implicit) ==> r == Some(ContextSpecific)
    ensures r.None? <==> tagging == Some(OtherTagging)
  {
    match tagging
    case None => Some(Universal)
    case Some(Explicit) => Some(ContextSpecific)
    case Some(Implicit) => Some(ContextSpecific)
    case Some(ClassTagging(c)) => Some(c)
    case Some(OtherTagging) => None
  }

  /** int_match_tag_and_class (lines 132-145, 165-171): 1 when the item
      has the expected tag and the expected class, 0 otherwise. */
  function MatchTagAndClass(h: Header, o: Options, defaultTag: int): (r: int)
    ensures r == 0 || r == 1
    ensures r == 1 <==> h.tag == ExpectedTag(o.tag, defaultTag) && ExpectedTagClass(o.tagging) == Some(h.tagClass)
  {
    if h.tag != ExpectedTag(o.tag, defaultTag) then 0
    else if ExpectedTagClass(o.tagging).None? then 0
    else if h.tagClass != ExpectedTagClass(o.tagging).value then 0
    else 1
  }

  /** Without tag options, an item matches exactly when it carries the
      type's own tag in the UNIVERSAL class. */
  lemma UntaggedMatch(h: Header, defaultTag: int, optional: bool, default: Option<Val>)
    ensures MatchTagAndClass(h, Options(None, None, optional, default), defaultTag) == 1
        <==> h.tag == defaultTag && h.tagClass == Universal
  {
  }

  // ---------------------------------------------------------------------
  // Matching a field against the current item
  // ---------------------------------------------------------------------

  /** The outcome of matching: 1 matched, 0 error, -1 skipped as optional,
      -2 skipped with the default value assigned; and the instance
      variables afterwards. */
  datatype MatchResult = MatchResult(code: int, ivars: Ivars)

  /** int_set_default_value (lines 288-301): the field's name is bound to
      its default value; a field without a name is an error. */
  function SetDefault(d: Definition, o: Options, ivars: Ivars): (r: Option<Ivars>)
    requires o.default.Some?
    ensures r.Some? <==> d.name.Some?
    ensures r.Some? ==> r.value == ivars[d.name.value := Default(o.default.value)]
  {
    if d.name.None? then None else Some(ivars[d.name.value := Default(o.default.value)])
  }

  /** int_check_optional_or_default (lines 303-327): a mandatory field that
      does not match is an error; an optional one is skipped, after its
      default value is assigned if it has one. */
  function CheckOptionalOrDefault(d: Definition, o: Options, ivars: Ivars): (r: MatchResult)
    ensures !o.optional ==> r == MatchResult(0, ivars)
    ensures o.optional && o.default.None? ==> r == MatchResult(-1, ivars)
    ensures o.optional && o.default.Some? && d.name.Some? ==>
      r == MatchResult(-2, ivars[d.name.value := Default(o.default.value)])
    ensures o.optional && o.default.Some? && d.name.None? ==> r == MatchResult(0, ivars)
  {
    if !o.optional then MatchResult(0, ivars)
    else if o.default.Some? then
      match SetDefault(d, o, ivars)
      case None => MatchResult(0, ivars)
      case Some(iv) => MatchResult(-2, iv)
    else MatchResult(-1, ivars)
  }

  /** int_match_prim (lines 329-344). The :type must be a tag number. */
  function MatchPrim(d: Definition, o: Options, h: Header, ivars: Ivars): MatchResult {
    if d.typ.None? || !d.typ.value.TagNumber? then MatchResult(0, ivars)
    else if MatchTagAndClass(h, o, d.typ.value.n) == 1 then MatchResult(1, ivars)
    else CheckOptionalOrDefault(d, o, ivars)
  }

  /** int_try_match_cons (lines 271-286): a constructed item with the
      expected tag and class matches; a primitive item against a mandatory
      field is an error ("Constructive bit not set"); otherwise -1. */
  function TryMatchCons(h: Header, o: Options, defaultTag: int): (r: int)
    ensures r == 1 <==> h.isConstructed && MatchTagAndClass(h, o, defaultTag) == 1
    ensures r == 0 <==> !h.isConstructed && !o.optional
    ensures r == 1 || r == 0 || r == -1
  {
    if h.isConstructed && MatchTagAndClass(h, o, defaultTag) == 1 then 1
    else if !h.isConstructed && !o.optional then 0
    else -1
  }

  /** int_match_cons (lines 423-437), for SEQUENCE and SET: a mandatory
      field that does not match is an error; an optional one is skipped.
      A default value is never assigned here. */
  function MatchCons(h: Header, o: Options, defaultTag: int): (r: int)
    ensures r == 1 <==> h.isConstructed && MatchTagAndClass(h, o, defaultTag) == 1
    ensures r == -1 <==> o.optional && r != 1
    ensures r == 0 || r == 1 || r == -1
  {
    var m := TryMatchCons(h, o, defaultTag);
    if m == 1 || m == 0 then m
    else if !o.optional then 0
    else -1
  }

  /** int_match_cons_of (lines 627-646), for SEQUENCE OF and SET OF. */
  function MatchConsOf(d: Definition, o: Options, h: Header, defaultTag: int, ivars: Ivars): MatchResult {
    var m := TryMatchCons(h, o, defaultTag);
    if m == 1 || m == 0 then MatchResult(m, ivars)
    else CheckOptionalOrDefault(d, o, ivars)
  }

  /** The match function of a definition's codec, with
      int_match_template (lines 570-595) written out: the field is matched
      as its type's definition with the field's own options, and a skipped
      field with a default receives it. ANY, CHOICE (lines 744-778) and an
      unknown codec never match. */
  function Match(d: Definition, o: Options, h: Header, ivars: Ivars): MatchResult
    decreases d
  {
    match d.codec
    case Primitive => MatchPrim(d, o, h, ivars)
    case Sequence => MatchResult(MatchCons(h, o, TagSequence), ivars)
    case Set => MatchResult(MatchCons(h, o, TagSet), ivars)
    case SequenceOf => MatchConsOf(d, o, h, TagSequence, ivars)
    case SetOf => MatchConsOf(d, o, h, TagSet, ivars)
    case TemplateCodec =>
      if d.typ.None? || !d.typ.value.TemplateClass? || d.typ.value.typeDef.None? then MatchResult(0, ivars)
      else
        var m := Match(d.typ.value.typeDef.value, o, h, ivars);
        if m.code == -1 && o.default.Some? then
          match SetDefault(d, o, m.ivars)
          case None => MatchResult(0, m.ivars)
          case Some(iv) => MatchResult(-2, iv)
        else m
    case Any => MatchResult(0, ivars)
    case Choice => MatchResult(0, ivars)
    case UnknownCodec => MatchResult(0, ivars)
  }

  /** The tag a definition's type stands for when no tag option is given. */
  function TypeTag(d: Definition): Option<int>
    decreases d
  {
    match d.codec
    case Primitive => if d.typ.Some? && d.typ.value.TagNumber? then Some(d.typ.value.n) else None
    case Sequence => Some(TagSequence)
    case SequenceOf => Some(TagSequence)
    case Set => Some(TagSet)
    case SetOf => Some(TagSet)
    case TemplateCodec =>
      if d.typ.Some? && d.typ.value.TemplateClass? && d.typ.value.typeDef.Some? then TypeTag(d.typ.value.typeDef.value)
      else None
    case _ => None
  }

  /** Every instance variable is as before, or bound to the value `v`. */
  predicate OnlyDefaultAssigned(before: Ivars, after: Ivars, v: Val) {
    before.Keys <= after.Keys &&
    forall k :: k in after ==> (k in before && after[k] == before[k]) || after[k] == Default(v)
  }

  /** The four outcomes of a match: a match means the item has the tag and
      class the field expects (and is constructed for the constructed
      codecs); a field can only be skipped if it is optional; only a
      skipped field with a default changes the instance variables, and
      then only by assigning that default. */
  lemma {:induction false} MatchOutcomes(d: Definition, o: Options, h: Header, ivars: Ivars)
    ensures var r := Match(d, o, h, ivars);
      (r.code == 1 || r.code == 0 || r.code == -1 || r.code == -2) &&
      (r.code == 1 ==> TypeTag(d).Some? && MatchTagAndClass(h, o, TypeTag(d).value) == 1) &&
      (r.code == 1 && d.codec != Primitive && d.codec != TemplateCodec ==> h.isConstructed) &&
      (r.code < 0 ==> o.optional) &&
      (r.code != -2 ==> r.ivars == ivars) &&
      (r.code == -2 ==> o.default.Some? && OnlyDefaultAssigned(ivars, r.ivars, o.default.value))
    decreases d
  {
    if d.codec == TemplateCodec && d.typ.Some? && d.typ.value.TemplateClass? && d.typ.value.typeDef.Some? {
      MatchOutcomes(d.typ.value.typeDef.value, o, h, ivars);
    }
  }

  /** A mandatory field either matches or is an error. */
  lemma MandatoryNeverSkipped(d: Definition, o: Options, h: Header, ivars: Ivars)
    requires !o.optional
    ensures Match(d, o, h, ivars).code == 1 || Match(d, o, h, ivars).code == 0
    ensures Match(d, o, h, ivars).ivars == ivars
  {
    MatchOutcomes(d, o, h, ivars);
  }

  /** A primitive that does not match is an error if mandatory, is
      skipped with its default assigned if it has one, and is skipped
      otherwise. */
  lemma PrimMismatch(d: Definition, o: Options, h: Header, ivars: Ivars)
    requires d.codec == Primitive && d.typ.Some? && d.typ.value.TagNumber?
    requires MatchTagAndClass(h, o, d.typ.value.n) == 0
    ensures !o.optional ==> Match(d, o, h, ivars).code == 0
    ensures o.optional && o.default.Some? && d.name.Some? ==>
      Match(d, o, h, ivars) == MatchResult(-2, ivars[d.name.value := Default(o.default.value)])
    ensures o.optional && o.default.None? ==> Match(d, o, h, ivars) == MatchResult(-1, ivars)
  {
  }

  /** krypt_asn1_template_get_ctx_for_codec (lines 90-112): every codec
      but an unknown one has a context; only PRIMITIVE, SEQUENCE OF, SET OF,
      ANY and CHOICE have a decode step. */
  datatype Ctx = Ctx(parse: Codec, hasDecode: bool)

  function CtxForCodec(c: Codec): (r: Option<Ctx>)
    ensures r.None? <==> c == UnknownCodec
    ensures r.Some? ==> (r.value.hasDecode <==> c in {Primitive, SequenceOf, SetOf, Any, Choice})
  {
    match c
    case Primitive => Some(Ctx(Primitive, true))
    case Sequence => Some(Ctx(Sequence, false))
    case Set => Some(Ctx(Sequence, false))
    case TemplateCodec => Some(Ctx(TemplateCodec, false))
    case SequenceOf => Some(Ctx(Primitive, true))
    case SetOf => Some(Ctx(Primitive, true))
    case Any => Some(Ctx(Any, true))
    case Choice => Some(Ctx(Choice, true))
    case UnknownCodec => None
  }

  // ---------------------------------------------------------------------
  // The content of a constructed value as a stream of items
  // ---------------------------------------------------------------------

  /** The stream of items a content is read as. An empty octet string
      (what is left once the cached bytes are freed) is an empty stream;
      reading the octets of a primitive as items is not part of this
      model. */
  function StreamOf(c: Content): (r: Option<seq<Tlv>>)
    ensures c.Items? ==> r == Some(c.items)
    ensures r.Some? ==> ItemsOctets(r.value) == ContentOctets(c)
  {
    match c
    case Items(items) => Some(items)
    case Octets(o) => if o == [] then Some([]) else None
  }

  /** The header that governs a constructed value, and the stream of its
      items. */
  datatype Unpacked = Unpacked(header: Header, stream: seq<Tlv>)

  /** int_unpack_explicit (lines 173-198) and the set-up of the streams of
      int_parse_cons (lines 496-504) and int_decode_cons_of (lines 697-705):
      with EXPLICIT tagging the first item of the content is the inner
      value, whose header then governs the value, and the stream starts
      right after that header; otherwise the stream is the content. */
  function ConsStream(o: Options, t: Tlv): (r: Option<Unpacked>)
    ensures o.tagging != Some(Explicit) ==> r == (if StreamOf(t.content).Some? then Some(Unpacked(t.header, StreamOf(t.content).value)) else None)
    ensures o.tagging == Some(Explicit) && r.Some? ==>
      StreamOf(t.content).Some? && StreamOf(t.content).value != [] &&
      r.value.header == StreamOf(t.content).value[0].header
  {
    match StreamOf(t.content)
    case None => None
    case Some(s) =>
      if o.tagging != Some(Explicit) then Some(Unpacked(t.header, s))
      else if s == [] then None
      else
        match StreamOf(s[0].content)
        case None => None
        case Some(inner) => Some(Unpacked(s[0].header, inner + s[1..]))
  }

  /** The stream is exactly what follows the governing header: the octets
      of the content, or with EXPLICIT tagging those after the inner
      header. */
  lemma ConsStreamOctets(o: Options, t: Tlv)
    requires ConsStream(o, t).Some?
    ensures var u := ConsStream(o, t).value;
      if o.tagging == Some(Explicit) then
        u.header.tagOctets + u.header.lengthOctets + ItemsOctets(u.stream) == ContentOctets(t.content)
      else
        u.header == t.header && ItemsOctets(u.stream) == ContentOctets(t.content)
  {
    if o.tagging == Some(Explicit) {
      var s := StreamOf(t.content).value;
      var inner := StreamOf(s[0].content).value;
      ItemsOctetsAppend(inner, s[1..]);
      assert ItemsOctets(s) == TlvOctets(s[0]) + ItemsOctets(s[1..]);
    }
  }

  /** The octets a primitive decoder receives (lines 382-396): the content,
      or with EXPLICIT tagging the octets after the inner header. */
  function PrimOctets(o: Options, t: Tlv): (r: Option<seq<byte>>)
    ensures o.tagging != Some(Explicit) ==> r == Some(ContentOctets(t.content))
  {
    if o.tagging != Some(Explicit) then Some(ContentOctets(t.content))
    else
      match StreamOf(t.content)
      case None => None
      case Some(s) => if s == [] then None else Some(ContentOctets(s[0].content) + ItemsOctets(s[1..]))
  }

  /** With EXPLICIT tagging the decoder receives the content minus the
      inner value's identifier and length octets. */
  lemma ExplicitPrimOctets(o: Options, t: Tlv)
    requires o.tagging == Some(Explicit) && PrimOctets(o, t).Some?
    ensures var inner := StreamOf(t.content).value[0];
      inner.header.tagOctets + inner.header.lengthOctets + PrimOctets(o, t).value == ContentOctets(t.content)
  {
    var s := StreamOf(t.content).value;
    assert ItemsOctets(s) == TlvOctets(s[0]) + ItemsOctets(s[1..]);
  }

  // ---------------------------------------------------------------------
  // Parsing a matched item into the instance variables
  // ---------------------------------------------------------------------

  datatype Outcome = Outcome(ok: bool, ivars: Ivars)

  /** int_parse_assign (lines 346-357): the item is bound, as a value
      template with the field's definition and options, to the field's
      name; it is decoded on first read. */
  function ParseAssign(d: Definition, o: Options, t: Tlv, ivars: Ivars): (r: Outcome)
    ensures r.ok <==> d.name.Some?
    ensures r.ok ==> r.ivars == ivars[d.name.value := Parsed(t, d, o, None)]
    ensures !r.ok ==> r.ivars == ivars
  {
    if d.name.None? then Outcome(false, ivars)
    else Outcome(true, ivars[d.name.value := Parsed(t, d, o, None)])
  }

  /** int_parse_template (lines 597-625): the item becomes an instance of
      the template type, with the type's definition and the field's
      options, bound to the field's name and parsed on first read. */
  function ParseTemplate(d: Definition, o: Options, t: Tlv, ivars: Ivars): (r: Outcome)
    ensures r.ok <==> d.name.Some? && d.typ.Some? && d.typ.value.TemplateClass? && d.typ.value.typeDef.Some?
    ensures r.ok ==> r.ivars == ivars[d.name.value := Nested(t, d.typ.value.typeDef.value, o)]
    ensures !r.ok ==> r.ivars == ivars
  {
    if d.typ.None? || d.name.None? || !d.typ.value.TemplateClass? || d.typ.value.typeDef.None? then Outcome(false, ivars)
    else Outcome(true, ivars[d.name.value := Nested(t, d.typ.value.typeDef.value, o)])
  }

  /** The parse function of a definition's codec. A SEQUENCE or SET field
      is parsed into the same instance variables as its enclosing value
      (int_parse_cons is called with the same object). */
  function ParseField(d: Definition, o: Options, t: Tlv, ivars: Ivars): Outcome
    decreases d, 3
  {
    match d.codec
    case Primitive => ParseAssign(d, o, t, ivars)
    case SequenceOf => ParseAssign(d, o, t, ivars)
    case SetOf => ParseAssign(d, o, t, ivars)
    case Sequence => var r := ParseCons(d, o, t, ivars); Outcome(r.ok, r.ivars)
    case Set => var r := ParseCons(d, o, t, ivars); Outcome(r.ok, r.ivars)
    case TemplateCodec => ParseTemplate(d, o, t, ivars)
    case _ => Outcome(false, ivars)
  }

  /** int_rest_is_optional (lines 451-476): once the input has run out,
      every remaining field must be optional; those with a default receive
      it. */
  function RestIsOptional(layout: seq<Field>, i: nat, ivars: Ivars): Outcome
    decreases |layout| - i
  {
    if i >= |layout| then Outcome(true, ivars)
    else
      var f := layout[i];
      if !f.options.optional then Outcome(false, ivars)
      else if f.options.default.Some? then
        match SetDefault(f.def, f.options, ivars)
        case None => Outcome(false, ivars)
        case Some(iv) => RestIsOptional(layout, i + 1, iv)
      else RestIsOptional(layout, i + 1, ivars)
  }

  /** Where the walk over a layout ended: whether it succeeded, how many
      fields it parsed, the item it read but no field took (at most one),
      the items it did not read, and the instance variables. */
  datatype WalkEnd = WalkEnd(ok: bool, numParsed: nat, pending: seq<Tlv>, rest: seq<Tlv>, ivars: Ivars)

  /** The loop of int_parse_cons (lines 508-539), from field `i` on, with
      `cur` the item read and `rest` the items after it. A matched item is
      parsed and the next one read, unless this was the last field; when
      the input runs out the remaining fields must be optional. A field
      that does not match leaves `cur` for the next field. */
  function Walk(d: Definition, layout: seq<Field>, i: nat, cur: Tlv, rest: seq<Tlv>, numParsed: nat, ivars: Ivars): WalkEnd
    requires d.layout == Fields(layout) && i <= |layout|
    decreases d, 1, |layout| - i
  {
    if i == |layout| then WalkEnd(true, numParsed, [cur], rest, ivars)
    else
      var f := layout[i];
      var m := Match(f.def, f.options, cur.header, ivars);
      if m.code == 0 then WalkEnd(false, numParsed, [cur], rest, m.ivars)
      else if m.code != 1 then Walk(d, layout, i + 1, cur, rest, numParsed, m.ivars)
      else
        var p := ParseField(f.def, f.options, cur, m.ivars);
        if !p.ok then WalkEnd(false, numParsed, [], rest, p.ivars)
        else if i == |layout| - 1 then WalkEnd(true, numParsed + 1, [], rest, p.ivars)
        else if rest == [] then
          var r := RestIsOptional(layout, i + 1, p.ivars);
          WalkEnd(r.ok, numParsed + 1, [], [], r.ivars)
        else Walk(d, layout, i + 1, rest[0], rest[1..], numParsed + 1, p.ivars)
  }

  /** The result of parsing a constructed value against a layout. */
  datatype ConsParse = ConsParse(ok: bool, numParsed: nat, ivars: Ivars)

  /** The checks after the loop (lines 541-551): at least min_size fields
      parsed, an END-OF-CONTENTS item for an indefinite length, and no
      items left over. */
  function FinishCons(w: WalkEnd, remaining: seq<Tlv>, minSize: int, isInfinite: bool): (r: ConsParse)
    ensures r.numParsed == w.numParsed && r.ivars == w.ivars
    ensures r.ok <==> (w.ok && w.numParsed >= minSize &&
      (if isInfinite then |remaining| == 1 && IsEndOfContents(remaining[0].header) else remaining == []))
  {
    if !w.ok || w.numParsed < minSize then ConsParse(false, w.numParsed, w.ivars)
    else if isInfinite && (remaining == [] || !IsEndOfContents(remaining[0].header)) then ConsParse(false, w.numParsed, w.ivars)
    else
      var after := if isInfinite then remaining[1..] else remaining;
      ConsParse(after == [], w.numParsed, w.ivars)
  }

  /** int_parse_cons (lines 478-568), as the rest of this model uses it:
      an empty content is walked as a run-out input from the first field
      on, and an item read but taken by no field is put back before the
      END-OF-CONTENTS and left-over checks. */
  function ParseCons(d: Definition, o: Options, t: Tlv, ivars: Ivars): ConsParse
    decreases d, 2
  {
    if d.layout.NoLayout? || d.minSize.None? then ConsParse(false, 0, ivars)
    else
      match ConsStream(o, t)
      case None => ConsParse(false, 0, ivars)
      case Some(u) =>
        var w := if u.stream == [] then (var r := RestIsOptional(d.layout.fields, 0, ivars); WalkEnd(r.ok, 0, [], [], r.ivars))
                 else Walk(d, d.layout.fields, 0, u.stream[0], u.stream[1..], 0, ivars);
        FinishCons(w, w.pending + w.rest, d.minSize.value, u.header.isInfinite)
  }

  /** int_parse_cons as written: an empty content fails at the first read
      (line 506), and an item read but taken by no field is dropped. */
  function ParseConsAsWritten(d: Definition, o: Options, t: Tlv, ivars: Ivars): ConsParse {
    if d.layout.NoLayout? || d.minSize.None? then ConsParse(false, 0, ivars)
    else
      match ConsStream(o, t)
      case None => ConsParse(false, 0, ivars)
      case Some(u) =>
        if u.stream == [] then ConsParse(false, 0, ivars)
        else
          var w := Walk(d, d.layout.fields, 0, u.stream[0], u.stream[1..], 0, ivars);
          FinishCons(w, w.rest, d.minSize.value, u.header.isInfinite)
  }

  // ---------------------------------------------------------------------
  // Properties of the layout walk
  // ---------------------------------------------------------------------

  /** The number of mandatory fields from field `i` on. */
  function MandatoryCount(layout: seq<Field>, i: nat): nat
    decreases |layout| - i
  {
    if i >= |layout| then 0
    else (if layout[i].options.optional then 0 else 1) + MandatoryCount(layout, i + 1)
  }

  /** The names of the fields with a default value from field `i` on. */
  function DefaultNames(layout: seq<Field>, i: nat): set<string>
    decreases |layout| - i
  {
    if i >= |layout| then {}
    else
      (if layout[i].options.default.Some? && layout[i].def.name.Some? then {layout[i].def.name.value} else {})
      + DefaultNames(layout, i + 1)
  }

  /** A run-out input is accepted exactly when every remaining field is
      optional (and every one with a default has a name); then every such
      name holds a default value, and no other instance variable changes. */
  lemma {:induction false} RestIsOptionalSpec(layout: seq<Field>, i: nat, ivars: Ivars)
    ensures var r := RestIsOptional(layout, i, ivars);
      (r.ok <==> forall j :: i <= j < |layout| ==>
         layout[j].options.optional && (layout[j].options.default.Some? ==> layout[j].def.name.Some?)) &&
      (r.ok ==> MandatoryCount(layout, i) == 0) &&
      (r.ok ==> forall k :: k in DefaultNames(layout, i) ==> k in r.ivars && r.ivars[k].Default?) &&
      r.ivars.Keys <= ivars.Keys + DefaultNames(layout, i) &&
      (forall k :: k in ivars && k !in DefaultNames(layout, i) ==> k in r.ivars && r.ivars[k] == ivars[k])
    decreases |layout| - i
  {
    if i < |layout| {
      var f := layout[i];
      if f.options.optional {
        if f.options.default.Some? {
          if f.def.name.Some? {
            RestIsOptionalSpec(layout, i + 1, ivars[f.def.name.value := Default(f.options.default.value)]);
          }
        } else {
          RestIsOptionalSpec(layout, i + 1, ivars);
        }
      }
    }
  }

  /** Accounting of the walk: a successful walk parses at least one item
      per mandatory field and at most one per field, and what it leaves
      (the pending item, then the unread ones) is exactly the input after
      the parsed items. */
  lemma {:induction false} WalkAccounts(d: Definition, layout: seq<Field>, i: nat, cur: Tlv, rest: seq<Tlv>, numParsed: nat, ivars: Ivars)
    requires d.layout == Fields(layout) && i <= |layout|
    ensures var w := Walk(d, layout, i, cur, rest, numParsed, ivars);
      w.ok ==>
        numParsed + MandatoryCount(layout, i) <= w.numParsed <= numParsed + (|layout| - i) &&
        w.numParsed - numParsed <= |rest| + 1 &&
        w.pending + w.rest == ([cur] + rest)[w.numParsed - numParsed..]
    decreases |layout| - i
  {
    if i < |layout| {
      var f := layout[i];
      var m := Match(f.def, f.options, cur.header, ivars);
      MatchOutcomes(f.def, f.options, cur.header, ivars);
      if m.code != 0 && m.code != 1 {
        WalkAccounts(d, layout, i + 1, cur, rest, numParsed, m.ivars);
      } else if m.code == 1 {
        var p := ParseField(f.def, f.options, cur, m.ivars);
        if p.ok && i < |layout| - 1 {
          if rest == [] {
            RestIsOptionalSpec(layout, i + 1, p.ivars);
          } else {
            WalkAccounts(d, layout, i + 1, rest[0], rest[1..], numParsed + 1, p.ivars);
            var w := Walk(d, layout, i + 1, rest[0], rest[1..], numParsed + 1, p.ivars);
            if w.ok {
              assert [rest[0]] + rest[1..] == rest;
              assert ([cur] + rest)[w.numParsed - numParsed..] == rest[w.numParsed - (numParsed + 1)..];
            }
          }
        } else if p.ok {
          assert ([cur] + rest)[1..] == rest;
        }
      }
    }
  }

  /** A constructed value parses only if every one of its items went to a
      field, in order: no more than the layout holds, at least min_size and
      at least one per mandatory field, followed by exactly one
      END-OF-CONTENTS item when the length is indefinite. */
  lemma ParseConsConsumesAll(d: Definition, o: Options, t: Tlv, ivars: Ivars)
    requires ParseCons(d, o, t, ivars).ok
    ensures d.layout.Fields? && d.minSize.Some? && ConsStream(o, t).Some?
    ensures var r := ParseCons(d, o, t, ivars);
      var u := ConsStream(o, t).value;
      d.minSize.value <= r.numParsed &&
      MandatoryCount(d.layout.fields, 0) <= r.numParsed <= |d.layout.fields| &&
      (if u.header.isInfinite then |u.stream| == r.numParsed + 1 && IsEndOfContents(u.stream[r.numParsed].header)
       else |u.stream| == r.numParsed)
  {
    var u := ConsStream(o, t).value;
    if u.stream == [] {
      RestIsOptionalSpec(d.layout.fields, 0, ivars);
    } else {
      WalkAccounts(d, d.layout.fields, 0, u.stream[0], u.stream[1..], 0, ivars);
      assert [u.stream[0]] + u.stream[1..] == u.stream;
    }
  }

  /** Where the walk leaves no item pending and the content is not empty,
      the code as written and the corrected parse agree. */
  lemma ParseConsAgrees(d: Definition, o: Options, t: Tlv, ivars: Ivars)
    requires d.layout.Fields? && ConsStream(o, t).Some?
    requires var u := ConsStream(o, t).value;
      u.stream != [] && Walk(d, d.layout.fields, 0, u.stream[0], u.stream[1..], 0, ivars).pending == []
    ensures ParseConsAsWritten(d, o, t, ivars) == ParseCons(d, o, t, ivars)
  {
  }

  /** As written, a constructed value with no items never parses, whatever
      its layout (line 506). */
  lemma EmptyContentRejectedAsWritten(d: Definition, o: Options, t: Tlv, ivars: Ivars)
    requires ConsStream(o, t).Some? && ConsStream(o, t).value.stream == []
    ensures !ParseConsAsWritten(d, o, t, ivars).ok
  {
  }

  // Concrete values for the examples below.

  /** version INTEGER */
  const VersionField := Field(Definition(Primitive, Some("version"), Some(TagNumber(2)), NoLayout, None), Options(None, None, false, None))
  /** flag BOOLEAN OPTIONAL */
  const FlagField := Field(Definition(Primitive, Some("flag"), Some(TagNumber(1)), NoLayout, None), Options(None, None, true, None))
  /** The INTEGER 1: 02 01 01 */
  const IntegerOne := Tlv(Header(2, Universal, false, false, [0x02], [0x01]), Octets([0x01]))
  /** An empty OCTET STRING: 04 00 */
  const EmptyOctetString := Tlv(Header(4, Universal, false, false, [0x04], [0x00]), Octets([]))
  /** END-OF-CONTENTS: 00 00 */
  const EndOfContents := Tlv(Header(0, Universal, false, false, [0x00], [0x00]), Octets([]))
  const NoOptions := Options(None, None, false, None)

  function SequenceOfFields(fields: seq<Field>): Definition {
    Definition(Sequence, None, None, Fields(fields), Some(0))
  }

  /** SEQUENCE { flag BOOLEAN OPTIONAL } against the empty SEQUENCE 30 00:
      rejected as written, accepted by the corrected parse. */
  lemma EmptySequenceOfOptionals()
    ensures var t := Tlv(Header(16, Universal, true, false, [0x30], [0x00]), Items([]));
      !ParseConsAsWritten(SequenceOfFields([FlagField]), NoOptions, t, map[]).ok &&
      ParseCons(SequenceOfFields([FlagField]), NoOptions, t, map[]).ok
  {
    var t := Tlv(Header(16, Universal, true, false, [0x30], [0x00]), Items([]));
    assert ConsStream(NoOptions, t) == Some(Unpacked(t.header, []));
    assert RestIsOptional([FlagField], 1, map[]) == Outcome(true, map[]);
    assert RestIsOptional([FlagField], 0, map[]) == Outcome(true, map[]);
  }

  /** SEQUENCE { version INTEGER, flag BOOLEAN OPTIONAL } against
      30 05 02 01 01 04 00: as written the OCTET STRING, read after the
      INTEGER and taken by no field, is dropped and the value accepted; the
      corrected parse rejects the left-over item. */
  lemma TrailingItemDroppedAsWritten()
    ensures var t := Tlv(Header(16, Universal, true, false, [0x30], [0x05]), Items([IntegerOne, EmptyOctetString]));
      ParseConsAsWritten(SequenceOfFields([VersionField, FlagField]), NoOptions, t, map[]).ok &&
      !ParseCons(SequenceOfFields([VersionField, FlagField]), NoOptions, t, map[]).ok
  {
    var t := Tlv(Header(16, Universal, true, false, [0x30], [0x05]), Items([IntegerOne, EmptyOctetString]));
    var d := SequenceOfFields([VersionField, FlagField]);
    var iv := map["version" := Parsed(IntegerOne, VersionField.def, VersionField.options, None)];
    assert ConsStream(NoOptions, t) == Some(Unpacked(t.header, [IntegerOne, EmptyOctetString]));
    assert Match(VersionField.def, VersionField.options, IntegerOne.header, map[]) == MatchResult(1, map[]);
    assert ParseField(VersionField.def, VersionField.options, IntegerOne, map[]) == Outcome(true, iv);
    assert Match(FlagField.def, FlagField.options, EmptyOctetString.header, iv) == MatchResult(-1, iv);
    assert Walk(d, d.layout.fields, 2, EmptyOctetString, [], 1, iv) == WalkEnd(true, 1, [EmptyOctetString], [], iv);
    assert Walk(d, d.layout.fields, 1, EmptyOctetString, [], 1, iv) == WalkEnd(true, 1, [EmptyOctetString], [], iv);
    assert [EmptyOctetString][1..] == [];
    assert Walk(d, d.layout.fields, 0, IntegerOne, [EmptyOctetString], 0, map[]) == WalkEnd(true, 1, [EmptyOctetString], [], iv);
  }

  /** The same layout against the indefinite-length 30 80 02 01 01 00 00:
      as written the END-OF-CONTENTS item, read after the INTEGER and taken
      by no field, is dropped, so the closing END-OF-CONTENTS is not found;
      the corrected parse accepts it. */
  lemma EndOfContentsDroppedAsWritten()
    ensures var t := Tlv(Header(16, Universal, true, true, [0x30], [0x80]), Items([IntegerOne, EndOfContents]));
      !ParseConsAsWritten(SequenceOfFields([VersionField, FlagField]), NoOptions, t, map[]).ok &&
      ParseCons(SequenceOfFields([VersionField, FlagField]), NoOptions, t, map[]).ok
  {
    var t := Tlv(Header(16, Universal, true, true, [0x30], [0x80]), Items([IntegerOne, EndOfContents]));
    var d := SequenceOfFields([VersionField, FlagField]);
    var iv := map["version" := Parsed(IntegerOne, VersionField.def, VersionField.options, None)];
    assert ConsStream(NoOptions, t) == Some(Unpacked(t.header, [IntegerOne, EndOfContents]));
    assert Match(VersionField.def, VersionField.options, IntegerOne.header, map[]) == MatchResult(1, map[]);
    assert ParseField(VersionField.def, VersionField.options, IntegerOne, map[]) == Outcome(true, iv);
    assert Match(FlagField.def, FlagField.options, EndOfContents.header, iv) == MatchResult(-1, iv);
    assert Walk(d, d.layout.fields, 2, EndOfContents, [], 1, iv) == WalkEnd(true, 1, [EndOfContents], [], iv);
    assert Walk(d, d.layout.fields, 1, EndOfContents, [], 1, iv) == WalkEnd(true, 1, [EndOfContents], [], iv);
    assert [EndOfContents][1..] == [];
    assert Walk(d, d.layout.fields, 0, IntegerOne, [EndOfContents], 0, map[]) == WalkEnd(true, 1, [EndOfContents], [], iv);
  }

  // ---------------------------------------------------------------------
  // Decoding
  // ---------------------------------------------------------------------

  /** A decode step fails (krypt_error_add, then 0), or raises
      NotImplementedError (int_decode_prim_inf, lines 359-363). */
  datatype DecodeError = DecodeFailed | NotImplemented

  /** int_decode_prim (lines 365-421): an indefinite-length primitive is
      not supported; an EXPLICIT value must be constructed and is decoded
      from the octets after its inner header, any other must be primitive;
      the :type's tag must have a decoder in the codec table `decoders`. */
  function DecodePrim(d: Definition, o: Options, t: Tlv, decoders: Asn1Data.CodecTable): (r: Result<Val, DecodeError>)
    ensures t.header.isInfinite <==> r == Err(NotImplemented)
    ensures r.Ok? ==> (o.tagging == Some(Explicit) <==> t.header.isConstructed)
    ensures r.Ok? ==> PrimOctets(o, t).Some? && r.value == Prim(PrimOctets(o, t).value)
    ensures r.Ok? ==> d.typ.Some? && d.typ.value.TagNumber? && 0 <= d.typ.value.n < 31 && decoders[d.typ.value.n]
  {
    if t.header.isInfinite then Err(NotImplemented)
    else if d.typ.None? || !d.typ.value.TagNumber? then Err(DecodeFailed)
    else if o.tagging == Some(Explicit) && !t.header.isConstructed then Err(DecodeFailed)
    else if o.tagging != Some(Explicit) && t.header.isConstructed then Err(DecodeFailed)
    else
      match PrimOctets(o, t)
      case None => Err(DecodeFailed)
      case Some(p) =>
        var n := d.typ.value.n;
        if n < 0 || n > 30 || !decoders[n] then Err(DecodeFailed)
        else Ok(Prim(p))
  }

  /** For a definite-length value whose type has a decoder, the tagging
      alone decides: an IMPLICIT or untagged value decodes exactly when it
      is primitive, an EXPLICIT one exactly when it is constructed around
      an inner value. */
  lemma DecodePrimTagging(d: Definition, o: Options, t: Tlv, decoders: Asn1Data.CodecTable)
    requires !t.header.isInfinite && d.typ.Some? && d.typ.value.TagNumber?
    requires 0 <= d.typ.value.n < 31 && decoders[d.typ.value.n]
    ensures o.tagging != Some(Explicit) ==>
      (DecodePrim(d, o, t, decoders) == Ok(Prim(ContentOctets(t.content))) <==> !t.header.isConstructed)
    ensures o.tagging == Some(Explicit) ==>
      (DecodePrim(d, o, t, decoders).Ok? <==> t.header.isConstructed && PrimOctets(o, t).Some?)
  {
  }

  /** rb_obj_is_kind_of over the ASN1Data hierarchy (krypt_asn1.c lines
      1057-1213): every class is an ASN1Data; SEQUENCE and SET are
      Constructive, the other universal classes Primitive. */
  predicate KindOf(c: Asn1Data.Klass, k: Asn1Data.Klass) {
    k == c || k == Asn1Data.Asn1DataClass ||
    (k == Asn1Data.PrimitiveClass && c.UniversalClass? && c.tag != 16 && c.tag != 17) ||
    (k == Asn1Data.ConstructiveClass && c.UniversalClass? && (c.tag == 16 || c.tag == 17))
  }

  /** Whether an item is read as an element of the given element type:
      any item becomes an instance of a template type with a definition;
      for a class of the ASN1Data hierarchy the item is parsed as by
      krypt_asn1_data_new and must be of that kind. */
  predicate AcceptsElement(ty: TypeRef, t: Tlv) {
    match ty
    case TemplateClass(td) => td.Some?
    case DataClass(k) =>
      Asn1Data.TagAllowed(t.header.tag, t.header.tagClass) && KindOf(Asn1Data.KlassForParsed(t.header), k)
    case TagNumber(_) => false
  }

  /** The elements read, and the items left in the stream. */
  datatype ElementsRead = ElementsRead(ok: bool, elements: seq<Tlv>, rest: seq<Tlv>)

  /** The loops of int_decode_cons_of_templates and int_decode_cons_of_prim
      (lines 648-680): items are read as elements until the stream ends;
      with `stopAtEoc`, reading also stops before an END-OF-CONTENTS item. */
  function ReadElements(ty: TypeRef, stream: seq<Tlv>, stopAtEoc: bool): ElementsRead
    decreases |stream|
  {
    if stream == [] then ElementsRead(true, [], [])
    else if stopAtEoc && IsEndOfContents(stream[0].header) then ElementsRead(true, [], stream)
    else if !AcceptsElement(ty, stream[0]) then ElementsRead(false, [], stream)
    else
      var r := ReadElements(ty, stream[1..], stopAtEoc);
      ElementsRead(r.ok, [stream[0]] + r.elements, r.rest)
  }

  /** A successful read splits the stream into accepted elements and a rest
      that is empty or, with `stopAtEoc`, starts with END-OF-CONTENTS. */
  lemma {:induction false} ReadElementsSplits(ty: TypeRef, stream: seq<Tlv>, stopAtEoc: bool)
    ensures var r := ReadElements(ty, stream, stopAtEoc);
      r.elements + r.rest == stream &&
      (r.ok ==> forall i :: 0 <= i < |r.elements| ==> AcceptsElement(ty, r.elements[i])) &&
      (stopAtEoc ==> forall i :: 0 <= i < |r.elements| ==> !IsEndOfContents(r.elements[i].header)) &&
      (r.ok ==> r.rest == [] || (stopAtEoc && IsEndOfContents(r.rest[0].header)))
    decreases |stream|
  {
    if stream != [] && !(stopAtEoc && IsEndOfContents(stream[0].header)) && AcceptsElement(ty, stream[0]) {
      ReadElementsSplits(ty, stream[1..], stopAtEoc);
      var r := ReadElements(ty, stream[1..], stopAtEoc);
      assert [stream[0]] + (r.elements + r.rest) == stream;
      assert forall i :: 1 <= i < |r.elements| + 1 ==> ([stream[0]] + r.elements)[i] == r.elements[i - 1];
    }
  }

  /** Reading stops at the first item that is not accepted (or, with
      `stopAtEoc`, is END-OF-CONTENTS): conversely, a stream of accepted
      elements, followed by nothing or by END-OF-CONTENTS, is read in full. */
  lemma {:induction false} ReadElementsComplete(ty: TypeRef, es: seq<Tlv>, tail: seq<Tlv>, stopAtEoc: bool)
    requires forall i :: 0 <= i < |es| ==> AcceptsElement(ty, es[i])
    requires stopAtEoc ==> forall i :: 0 <= i < |es| ==> !IsEndOfContents(es[i].header)
    requires tail == [] || (stopAtEoc && IsEndOfContents(tail[0].header))
    ensures ReadElements(ty, es + tail, stopAtEoc) == ElementsRead(true, es, tail)
    decreases |es|
  {
    if es != [] {
      assert (es + tail)[1..] == es[1..] + tail;
      ReadElementsComplete(ty, es[1..], tail, stopAtEoc);
      assert [es[0]] + es[1..] == es;
    }
  }

  /** The checks after the element loop (lines 708-726): an empty list is
      an error unless the field is optional; then END-OF-CONTENTS for an
      indefinite length, and nothing left. */
  function FinishConsOf(e: ElementsRead, optional: bool, isInfinite: bool): (r: Result<Val, DecodeError>)
    ensures r.Ok? <==> (e.ok && (e.elements != [] || optional) &&
      (if isInfinite then |e.rest| == 1 && IsEndOfContents(e.rest[0].header) else e.rest == []))
    ensures r.Ok? ==> r.value == Elements(e.elements)
    ensures r.Err? ==> r == Err(DecodeFailed)
  {
    if !e.ok then Err(DecodeFailed)
    else if e.elements == [] && !optional then Err(DecodeFailed)
    else if isInfinite && (e.rest == [] || !IsEndOfContents(e.rest[0].header)) then Err(DecodeFailed)
    else if (if isInfinite then e.rest[1..] else e.rest) != [] then Err(DecodeFailed)
    else Ok(Elements(e.elements))
  }

  /** int_decode_cons_of (lines 682-742), as the rest of this model uses it:
      for an indefinite length the element loop stops before the closing
      END-OF-CONTENTS item. A :type that is a tag number is not a class
      (it has no include?) and fails. */
  function DecodeConsOf(d: Definition, o: Options, t: Tlv): Result<Val, DecodeError> {
    if d.typ.None? || d.name.None? then Err(DecodeFailed)
    else
      match ConsStream(o, t)
      case None => Err(DecodeFailed)
      case Some(u) =>
        if d.typ.value.TagNumber? then Err(DecodeFailed)
        else FinishConsOf(ReadElements(d.typ.value, u.stream, u.header.isInfinite), o.optional, u.header.isInfinite)
  }

  /** int_decode_cons_of as written: the element loop reads every item up
      to the end of the stream, END-OF-CONTENTS included. */
  function DecodeConsOfAsWritten(d: Definition, o: Options, t: Tlv): Result<Val, DecodeError> {
    if d.typ.None? || d.name.None? then Err(DecodeFailed)
    else
      match ConsStream(o, t)
      case None => Err(DecodeFailed)
      case Some(u) =>
        if d.typ.value.TagNumber? then Err(DecodeFailed)
        else FinishConsOf(ReadElements(d.typ.value, u.stream, false), o.optional, u.header.isInfinite)
  }

  /** A SEQUENCE OF or SET OF decodes to the items of its content, in order
      and all of the element type, with one closing END-OF-CONTENTS item
      for an indefinite length; an empty one only if optional. Conversely
      every such content decodes. */
  lemma DecodeConsOfSpec(d: Definition, o: Options, t: Tlv, es: seq<Tlv>)
    requires d.typ.Some? && d.name.Some? && !d.typ.value.TagNumber? && ConsStream(o, t).Some?
    ensures var u := ConsStream(o, t).value;
      DecodeConsOf(d, o, t) == Ok(Elements(es)) <==>
        (es != [] || o.optional) &&
        (forall i :: 0 <= i < |es| ==> AcceptsElement(d.typ.value, es[i])) &&
        if u.header.isInfinite then
          (forall i :: 0 <= i < |es| ==> !IsEndOfContents(es[i].header)) &&
          |u.stream| == |es| + 1 && u.stream[..|es|] == es && IsEndOfContents(u.stream[|es|].header)
        else u.stream == es
  {
    var u := ConsStream(o, t).value;
    var inf := u.header.isInfinite;
    ReadElementsSplits(d.typ.value, u.stream, inf);
    var r := ReadElements(d.typ.value, u.stream, inf);
    if inf && |u.stream| == |es| + 1 && u.stream[..|es|] == es && IsEndOfContents(u.stream[|es|].header) &&
       (forall i :: 0 <= i < |es| ==> AcceptsElement(d.typ.value, es[i]) && !IsEndOfContents(es[i].header)) {
      assert u.stream == es + [u.stream[|es|]];
      ReadElementsComplete(d.typ.value, es, [u.stream[|es|]], true);
    }
    if !inf && u.stream == es && (forall i :: 0 <= i < |es| ==> AcceptsElement(d.typ.value, es[i])) {
      assert es + [] == es;
      ReadElementsComplete(d.typ.value, es, [], false);
    }
    if DecodeConsOf(d, o, t) == Ok(Elements(es)) && inf {
      assert u.stream == es + r.rest;
      assert u.stream[..|es|] == es;
    }
  }

  /** As written, an indefinite-length SEQUENCE OF or SET OF never decodes:
      its END-OF-CONTENTS item is read as an element (or rejected as one),
      so it is not there when the closing END-OF-CONTENTS is looked for. */
  lemma IndefiniteConsOfRejectedAsWritten(d: Definition, o: Options, t: Tlv)
    requires ConsStream(o, t).Some? && ConsStream(o, t).value.header.isInfinite
    ensures DecodeConsOfAsWritten(d, o, t).Err?
  {
    if d.typ.Some? && d.name.Some? && !d.typ.value.TagNumber? {
      ReadElementsSplits(d.typ.value, ConsStream(o, t).value.stream, false);
    }
  }

  /** SEQUENCE OF INTEGER against 30 80 02 01 01 00 00 decodes to the one
      INTEGER. */
  lemma IndefiniteSequenceOfIntegers()
    ensures var d := Definition(SequenceOf, Some("numbers"), Some(DataClass(Asn1Data.UniversalClass(2))), NoLayout, None);
      var t := Tlv(Header(16, Universal, true, true, [0x30], [0x80]), Items([IntegerOne, EndOfContents]));
      DecodeConsOf(d, NoOptions, t) == Ok(Elements([IntegerOne])) && DecodeConsOfAsWritten(d, NoOptions, t).Err?
  {
    var d := Definition(SequenceOf, Some("numbers"), Some(DataClass(Asn1Data.UniversalClass(2))), NoLayout, None);
    var t := Tlv(Header(16, Universal, true, true, [0x30], [0x80]), Items([IntegerOne, EndOfContents]));
    assert ConsStream(NoOptions, t) == Some(Unpacked(t.header, [IntegerOne, EndOfContents]));
    DecodeConsOfSpec(d, NoOptions, t, [IntegerOne]);
    IndefiniteConsOfRejectedAsWritten(d, NoOptions, t);
  }

  // ---------------------------------------------------------------------
  // Templates and lazily parsed instances
  // ---------------------------------------------------------------------

  /** A krypt_asn1_template: the header and cached content of its item,
      its definition and options, whether it has been parsed and decoded,
      and its decoded value. */
  datatype Template = Template(
    header: Header,
    bytes: Content,
    def: Definition,
    options: Options,
    parsed: bool,
    decoded: bool,
    value: Option<Val>)

  /** The flags the parse functions leave: only a value that was bound
      whole to a field (PRIMITIVE, SEQUENCE OF, SET OF) is parsed but still
      to be decoded. */
  predicate Consistent(tp: Template) {
    tp.parsed && !tp.decoded ==> tp.def.codec in {Primitive, SequenceOf, SetOf}
  }

  /** The outcome of int_parse_decode: success, and the new state. */
  datatype Step = Step(ok: bool, ivars: Ivars, template: Template)

  /** The parse step of int_parse_decode (lines 796-797) on an instance's
      own template: a SEQUENCE or SET is walked and its cached octets
      freed (lines 553-560); a primitive or list is bound to its name; a
      template field becomes an instance of its type (lines 611-623). */
  function ParseStep(ivars: Ivars, tp: Template): (r: Step)
    ensures r.ok && tp.def.codec in {Sequence, Set} ==>
      r.template == tp.(parsed := true, decoded := true, bytes := Octets([]))
    ensures r.ok && tp.def.codec in {Primitive, SequenceOf, SetOf} ==> r.template == tp.(parsed := true)
    ensures r.ok ==> tp.def.codec in {Sequence, Set, Primitive, SequenceOf, SetOf, TemplateCodec}
    ensures !r.ok ==> r.template == tp
  {
    var t := Tlv(tp.header, tp.bytes);
    match tp.def.codec
    case Sequence =>
      var c := ParseCons(tp.def, tp.options, t, ivars);
      Step(c.ok, c.ivars, if c.ok then tp.(parsed := true, decoded := true, bytes := Octets([])) else tp)
    case Set =>
      var c := ParseCons(tp.def, tp.options, t, ivars);
      Step(c.ok, c.ivars, if c.ok then tp.(parsed := true, decoded := true, bytes := Octets([])) else tp)
    case Primitive =>
      var a := ParseAssign(tp.def, tp.options, t, ivars);
      Step(a.ok, a.ivars, if a.ok then tp.(parsed := true) else tp)
    case SequenceOf =>
      var a := ParseAssign(tp.def, tp.options, t, ivars);
      Step(a.ok, a.ivars, if a.ok then tp.(parsed := true) else tp)
    case SetOf =>
      var a := ParseAssign(tp.def, tp.options, t, ivars);
      Step(a.ok, a.ivars, if a.ok then tp.(parsed := true) else tp)
    case TemplateCodec =>
      var a := ParseTemplate(tp.def, tp.options, t, ivars);
      if a.ok then Step(true, a.ivars, tp.(def := tp.def.typ.value.typeDef.value, parsed := false, decoded := true))
      else Step(false, a.ivars, tp)
    case _ => Step(false, ivars, tp)
  }

  /** The decode step of int_parse_decode (lines 798-799): a primitive or
      a SEQUENCE OF / SET OF is decoded into the template's value (the list
      also frees its cached octets, lines 735-737); ANY and CHOICE fail;
      the other codecs have no decode step. */
  function DecodeStep(ivars: Ivars, tp: Template, decoders: Asn1Data.CodecTable): (r: Step)
    ensures r.ivars == ivars
    ensures r.ok && tp.def.codec in {Primitive, SequenceOf, SetOf} ==> r.template.decoded && r.template.value.Some?
    ensures r.ok ==> r.template.parsed == tp.parsed && r.template.def == tp.def
    ensures !r.ok ==> r.template == tp
  {
    var t := Tlv(tp.header, tp.bytes);
    match tp.def.codec
    case Primitive =>
      (match DecodePrim(tp.def, tp.options, t, decoders)
       case Ok(v) => Step(true, ivars, tp.(value := Some(v), decoded := true))
       case Err(_) => Step(false, ivars, tp))
    case SequenceOf =>
      (match DecodeConsOf(tp.def, tp.options, t)
       case Ok(v) => Step(true, ivars, tp.(value := Some(v), decoded := true, bytes := Octets([])))
       case Err(_) => Step(false, ivars, tp))
    case SetOf =>
      (match DecodeConsOf(tp.def, tp.options, t)
       case Ok(v) => Step(true, ivars, tp.(value := Some(v), decoded := true, bytes := Octets([])))
       case Err(_) => Step(false, ivars, tp))
    case Any => Step(false, ivars, tp)
    case Choice => Step(false, ivars, tp)
    case _ => Step(true, ivars, tp)
  }

  /** int_parse_decode (lines 780-800): the template is matched against its
      own definition (only an error stops it; a default assigned here
      stays), then parsed unless it is, then decoded unless it is. */
  function ParseDecodeSpec(ivars: Ivars, tp: Template, decoders: Asn1Data.CodecTable): Step {
    var m := Match(tp.def, tp.options, tp.header, ivars);
    if m.code == 0 then Step(false, m.ivars, tp)
    else
      var p := if tp.parsed then Step(true, m.ivars, tp) else ParseStep(m.ivars, tp);
      if !p.ok || p.template.decoded then p
      else DecodeStep(p.ivars, p.template, decoders)
  }

  /** int_parse_decode on the value template of a field (lines 815-818):
      a bound item is matched again with its field's definition and
      decoded once; defaults and instances are returned as they are. */
  function DecodeSlot(s: Slot, decoders: Asn1Data.CodecTable): (r: Result<Slot, DecodeError>)
    ensures r.Ok? && !s.Parsed? ==> r.value == s
    ensures r.Ok? && s.Parsed? ==> r.value.Parsed? && r.value.item == s.item && r.value.def == s.def && r.value.options == s.options
    ensures s.Parsed? && s.value.Some? ==> r == Ok(s)
  {
    match s
    case Parsed(t, d, o, None) =>
      if Match(d, o, t.header, map[]).code == 0 then Err(DecodeFailed)
      else
        (match d.codec
        case Primitive =>
          (match DecodePrim(d, o, t, decoders)
           case Ok(v) => Ok(Parsed(t, d, o, Some(v)))
           case Err(e) => Err(e))
        case SequenceOf =>
          (match DecodeConsOf(d, o, t)
           case Ok(v) => Ok(Parsed(t, d, o, Some(v)))
           case Err(e) => Err(e))
        case SetOf =>
          (match DecodeConsOf(d, o, t)
           case Ok(v) => Ok(Parsed(t, d, o, Some(v)))
           case Err(e) => Err(e))
        case Any => Err(DecodeFailed)
        case Choice => Err(DecodeFailed)
        case _ => Ok(s))
    case _ => Ok(s)
  }

  /** The outcome of reading a field: the field's value (None for an unset
      field), and the new state. */
  datatype Read = Read(result: Result<Option<Slot>, DecodeError>, ivars: Ivars, template: Template)

  /** krypt_asn1_template_get_parse_decode (lines 802-827). */
  function GetParseDecodeSpec(ivars: Ivars, tp: Template, name: string, decoders: Asn1Data.CodecTable): Read {
    var s := if tp.parsed && tp.decoded then Step(true, ivars, tp) else ParseDecodeSpec(ivars, tp, decoders);
    if !s.ok then Read(Err(DecodeFailed), s.ivars, s.template)
    else if name !in s.ivars then Read(Ok(None), s.ivars, s.template)
    else
      match DecodeSlot(s.ivars[name], decoders)
      case Err(e) => Read(Err(e), s.ivars, s.template)
      case Ok(slot) => Read(Ok(Some(slot)), s.ivars[name := slot], s.template)
  }

  /** A successful parse and decode leaves the template parsed and decoded,
      unless it is a template field, which stays to be parsed. */
  lemma ParseDecodeCompletes(ivars: Ivars, tp: Template, decoders: Asn1Data.CodecTable)
    requires Consistent(tp)
    requires ParseDecodeSpec(ivars, tp, decoders).ok
    ensures var s := ParseDecodeSpec(ivars, tp, decoders);
      Consistent(s.template) &&
      (tp.def.codec != TemplateCodec ==> s.template.parsed && s.template.decoded)
  {
  }

  /** Reading a field is idempotent: once a read has succeeded, reading the
      same field again parses and decodes nothing and returns the same
      value. */
  lemma GetParseDecodeIdempotent(ivars: Ivars, tp: Template, name: string, decoders: Asn1Data.CodecTable)
    requires Consistent(tp) && tp.def.codec != TemplateCodec
    requires GetParseDecodeSpec(ivars, tp, name, decoders).result.Ok?
    ensures var r := GetParseDecodeSpec(ivars, tp, name, decoders);
      GetParseDecodeSpec(r.ivars, r.template, name, decoders) == r
  {
    var r := GetParseDecodeSpec(ivars, tp, name, decoders);
    if !(tp.parsed && tp.decoded) {
      ParseDecodeCompletes(ivars, tp, decoders);
    }
    if name in r.ivars {
      var s := if tp.parsed && tp.decoded then Step(true, ivars, tp) else ParseDecodeSpec(ivars, tp, decoders);
      var slot := DecodeSlot(s.ivars[name], decoders).value;
      assert r.ivars == s.ivars[name := slot];
      assert DecodeSlot(slot, decoders) == Ok(slot) by {
        if slot.Parsed? && slot.value.None? {
          assert s.ivars[name].Parsed? && s.ivars[name].value.None?;
        }
      }
      assert r.ivars[name := slot] == r.ivars;
    }
  }

  /** A Ruby object of a template class: its instance variables and its
      template. */
  class Instance {
    var ivars: Ivars
    var template: Template

    /** int_rb_template_new_initial (lines 831-848): an instance over an
        item, with the class's definition and options; nothing is parsed. */
    constructor FromItem(t: Tlv, f: Field)
      ensures ivars == map[]
      ensures template == Template(t.header, t.content, f.def, f.options, false, false, None)
    {
      ivars := map[];
      template := Template(t.header, t.content, f.def, f.options, false, false, None);
    }

    /** krypt_asn1_template_parse_der (lines 864-880) over
        krypt_asn1_template_parse_stream (lines 850-862): the first item of
        the input becomes an instance of a class with a definition (`klass`,
        None for a class without one). Parsing is lazy: nothing is matched
        yet, and the items after the first are not looked at. */
    static method ParseDer(klass: Option<Field>, stream: seq<Tlv>) returns (r: Option<Instance>)
      ensures r.Some? <==> klass.Some? && stream != []
      ensures r.Some? ==> fresh(r.value) && r.value.ivars == map[]
      ensures r.Some? ==>
        r.value.template == Template(stream[0].header, stream[0].content, klass.value.def, klass.value.options, false, false, None)
    {
      if stream == [] || klass.None? {
        return None;
      }
      var inst := new Instance.FromItem(stream[0], klass.value);
      return Some(inst);
    }

    /** int_rest_is_optional (lines 451-476), a loop over the remaining
        fields. */
    method RestIsOptionalInto(layout: seq<Field>, from: nat) returns (ok: bool)
      modifies this
      ensures Outcome(ok, ivars) == RestIsOptional(layout, from, old(ivars))
      ensures template == old(template)
    {
      var i := from;
      while i < |layout|
        invariant RestIsOptional(layout, i, ivars) == RestIsOptional(layout, from, old(ivars))
        invariant template == old(template)
        decreases |layout| - i
      {
        var f := layout[i];
        if !f.options.optional {
          return false;
        }
        if f.options.default.Some? {
          if f.def.name.None? {
            return false;
          }
          ivars := ivars[f.def.name.value := Default(f.options.default.value)];
        }
        i := i + 1;
      }
      return true;
    }

    /** The parse function of a field's codec, into this instance. */
    method ParseFieldInto(d: Definition, o: Options, t: Tlv) returns (ok: bool)
      modifies this
      ensures Outcome(ok, ivars) == ParseField(d, o, t, old(ivars))
      ensures template == old(template)
      decreases d, 3
    {
      match d.codec
      case Sequence =>
        var c := ParseConsInto(d, o, t);
        ok := c.ok;
      case Set =>
        var c := ParseConsInto(d, o, t);
        ok := c.ok;
      case TemplateCodec =>
        var a := ParseTemplate(d, o, t, ivars);
        ok, ivars := a.ok, a.ivars;
      case Primitive =>
        var a := ParseAssign(d, o, t, ivars);
        ok, ivars := a.ok, a.ivars;
      case SequenceOf =>
        var a := ParseAssign(d, o, t, ivars);
        ok, ivars := a.ok, a.ivars;
      case SetOf =>
        var a := ParseAssign(d, o, t, ivars);
        ok, ivars := a.ok, a.ivars;
      case _ =>
        ok := false;
    }

    /** int_parse_cons (lines 478-568): the loop over the layout, each
        field matched against the current item, with the corrected handling
        of an empty content and of an item no field took. */
    method ParseConsInto(d: Definition, o: Options, t: Tlv) returns (r: ConsParse)
      modifies this
      ensures r == ParseCons(d, o, t, old(ivars)) && ivars == r.ivars
      ensures template == old(template)
      decreases d, 2
    {
      if d.layout.NoLayout? || d.minSize.None? {
        return ConsParse(false, 0, ivars);
      }
      var u0 := ConsStream(o, t);
      if u0.None? {
        return ConsParse(false, 0, ivars);
      }
      var u := u0.value;
      var layout := d.layout.fields;
      var w: WalkEnd;
      if u.stream == [] {
        var ok := RestIsOptionalInto(layout, 0);
        w := WalkEnd(ok, 0, [], [], ivars);
      } else {
        ghost var goal := Walk(d, layout, 0, u.stream[0], u.stream[1..], 0, ivars);
        var cur, rest, numParsed, i := u.stream[0], u.stream[1..], 0, 0;
        var finished := false;
        w := WalkEnd(false, 0, [], [], ivars);
        while !finished
          invariant 0 <= i <= |layout|
          invariant !finished ==> Walk(d, layout, i, cur, rest, numParsed, ivars) == goal
          invariant finished ==> w == goal && w.ivars == ivars
          invariant template == old(template)
          decreases |layout| - i, if finished then 0 else 1
        {
          if i == |layout| {
            w, finished := WalkEnd(true, numParsed, [cur], rest, ivars), true;
          } else {
            var f := layout[i];
            var m := Match(f.def, f.options, cur.header, ivars);
            ivars := m.ivars;
            if m.code == 0 {
              w, finished := WalkEnd(false, numParsed, [cur], rest, ivars), true;
            } else if m.code != 1 {
              i := i + 1;
            } else {
              var ok := ParseFieldInto(f.def, f.options, cur);
              if !ok {
                w, finished := WalkEnd(false, numParsed, [], rest, ivars), true;
              } else if i == |layout| - 1 {
                w, finished := WalkEnd(true, numParsed + 1, [], rest, ivars), true;
              } else if rest == [] {
                var more := RestIsOptionalInto(layout, i + 1);
                w, finished := WalkEnd(more, numParsed + 1, [], [], ivars), true;
              } else {
                cur, rest, numParsed, i := rest[0], rest[1..], numParsed + 1, i + 1;
              }
            }
          }
        }
      }
      r := FinishCons(w, w.pending + w.rest, d.minSize.value, u.header.isInfinite);
    }

    /** The element loops of int_decode_cons_of_templates and
        int_decode_cons_of_prim (lines 648-680). */
    static method ReadElementsLoop(ty: TypeRef, stream: seq<Tlv>, stopAtEoc: bool) returns (r: ElementsRead)
      ensures r == ReadElements(ty, stream, stopAtEoc)
    {
      var elements: seq<Tlv> := [];
      var i := 0;
      while i < |stream|
        invariant 0 <= i <= |stream|
        invariant elements == stream[..i]
        invariant ReadElements(ty, stream, stopAtEoc) == Prefixed(elements, ReadElements(ty, stream[i..], stopAtEoc))
        decreases |stream| - i
      {
        if stopAtEoc && IsEndOfContents(stream[i].header) {
          return ElementsRead(true, elements, stream[i..]);
        }
        if !AcceptsElement(ty, stream[i]) {
          return ElementsRead(false, elements, stream[i..]);
        }
        ReadElementsStep(ty, stream, i, stopAtEoc, elements);
        elements := elements + [stream[i]];
        i := i + 1;
      }
      return ElementsRead(true, elements, []);
    }

    /** int_parse_decode (lines 780-800) on this instance's own template. */
    method ParseDecode(decoders: Asn1Data.CodecTable) returns (ok: bool)
      modifies this
      ensures Step(ok, ivars, template) == ParseDecodeSpec(old(ivars), old(template), decoders)
    {
      var tp := template;
      var m := Match(tp.def, tp.options, tp.header, ivars);
      ivars := m.ivars;
      if m.code == 0 {
        return false;
      }
      var t := Tlv(tp.header, tp.bytes);
      if !tp.parsed {
        match tp.def.codec {
        case Sequence =>
          var c := ParseConsInto(tp.def, tp.options, t);
          if !c.ok { return false; }
          template := tp.(parsed := true, decoded := true, bytes := Octets([]));
        case Set =>
          var c := ParseConsInto(tp.def, tp.options, t);
          if !c.ok { return false; }
          template := tp.(parsed := true, decoded := true, bytes := Octets([]));
        case TemplateCodec =>
          var a := ParseTemplate(tp.def, tp.options, t, ivars);
          ivars := a.ivars;
          if !a.ok { return false; }
          template := tp.(def := tp.def.typ.value.typeDef.value, parsed := false, decoded := true);
        case Primitive =>
          var a := ParseAssign(tp.def, tp.options, t, ivars);
          ivars := a.ivars;
          if !a.ok { return false; }
          template := tp.(parsed := true);
        case SequenceOf =>
          var a := ParseAssign(tp.def, tp.options, t, ivars);
          ivars := a.ivars;
          if !a.ok { return false; }
          template := tp.(parsed := true);
        case SetOf =>
          var a := ParseAssign(tp.def, tp.options, t, ivars);
          ivars := a.ivars;
          if !a.ok { return false; }
          template := tp.(parsed := true);
        case _ =>
          return false;
        }
      }
      if template.decoded {
        return true;
      }
      tp := template;
      match tp.def.codec {
      case Primitive =>
        var v := DecodePrim(tp.def, tp.options, t, decoders);
        if v.Err? { return false; }
        template := tp.(value := Some(v.value), decoded := true);
      case SequenceOf =>
        ok := DecodeElementsInto(tp, t);
        return;
      case SetOf =>
        ok := DecodeElementsInto(tp, t);
        return;
      case Any =>
        return false;
      case Choice =>
        return false;
      case _ =>
      }
      return true;
    }

    /** The decode step of a SEQUENCE OF or SET OF template
        (int_decode_cons_of, lines 682-742). */
    method DecodeElementsInto(tp: Template, t: Tlv) returns (ok: bool)
      modifies this
      ensures ivars == old(ivars)
      ensures var v := DecodeConsOf(tp.def, tp.options, t);
        ok == v.Ok? &&
        template == (if v.Ok? then tp.(value := Some(v.value), decoded := true, bytes := Octets([])) else old(template))
    {
      var d, o := tp.def, tp.options;
      if d.typ.None? || d.name.None? {
        return false;
      }
      var u0 := ConsStream(o, t);
      if u0.None? || d.typ.value.TagNumber? {
        return false;
      }
      var u := u0.value;
      var e := ReadElementsLoop(d.typ.value, u.stream, u.header.isInfinite);
      var v := FinishConsOf(e, o.optional, u.header.isInfinite);
      if v.Err? {
        return false;
      }
      template := tp.(value := Some(v.value), decoded := true, bytes := Octets([]));
      return true;
    }

    /** krypt_asn1_template_get_parse_decode (lines 802-827): reading the
        field `name` parses and decodes this instance first unless that is
        done, then decodes the field's value template unless that is done. */
    method GetParseDecode(name: string, decoders: Asn1Data.CodecTable) returns (r: Result<Option<Slot>, DecodeError>)
      modifies this
      ensures Read(r, ivars, template) == GetParseDecodeSpec(old(ivars), old(template), name, decoders)
    {
      if !(template.parsed && template.decoded) {
        var ok := ParseDecode(decoders);
        if !ok {
          return Err(DecodeFailed);
        }
      }
      if name !in ivars {
        return Ok(None);
      }
      var slot := DecodeSlot(ivars[name], decoders);
      if slot.Err? {
        return Err(slot.error);
      }
      ivars := ivars[name := slot.value];
      return Ok(Some(slot.value));
    }
  }

  /** One turn of the element loop: an accepted item moves from the
      stream to the elements read. */
  lemma ReadElementsStep(ty: TypeRef, stream: seq<Tlv>, i: nat, stopAtEoc: bool, es: seq<Tlv>)
    requires i < |stream| && es == stream[..i]
    requires !(stopAtEoc && IsEndOfContents(stream[i].header)) && AcceptsElement(ty, stream[i])
    ensures stream[..i + 1] == es + [stream[i]]
    ensures Prefixed(es, ReadElements(ty, stream[i..], stopAtEoc))
         == Prefixed(es + [stream[i]], ReadElements(ty, stream[i + 1..], stopAtEoc))
  {
    assert stream[i..][1..] == stream[i + 1..];
    var r := ReadElements(ty, stream[i + 1..], stopAtEoc);
    assert es + ([stream[i]] + r.elements) == (es + [stream[i]]) + r.elements;
  }

  /** The elements `es` in front of a read's elements. */
  function Prefixed(es: seq<Tlv>, r: ElementsRead): (p: ElementsRead)
    ensures p.ok == r.ok && p.rest == r.rest && |p.elements| == |es| + |r.elements|
  {
    ElementsRead(r.ok, es + r.elements, r.rest)
  }
}
