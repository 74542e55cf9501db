/**
 * Parsed BER/DER items (ITU-T X.690), as the header reader of krypt-core
 * hands them out.
 *
 * The reader itself (krypt_asn1_next_header, krypt_asn1_get_value) is not
 * part of this model. A parsed item is given here as its header record,
 * which keeps the identifier and length octets it was read from, and its
 * content. The content of a primitive item is its value octets; that of a
 * constructed item is the sequence of items the reader finds in it, an
 * END-OF-CONTENTS item included when the length is indefinite.
 */
module Tlv {
  import opened Wrappers

  /** The four tag classes of X.690 section 8.1.2.2. */
  datatype TagClass = Universal | Application | ContextSpecific | Private

  /** A header record: tag number, class, the constructed bit (section
      8.1.2.5), the indefinite-length flag (section 8.1.3.6), and the
      identifier and length octets it was read from. */
  datatype Header = Header(
    tag: nat,
    tagClass: TagClass,
    isConstructed: bool,
    isInfinite: bool,
    tagOctets: seq<byte>,
    lengthOctets: seq<byte>)

  datatype Tlv = Tlv(header: Header, content: Content)

  datatype Content =
    | Octets(octets: seq<byte>)
    | Items(items: seq<Tlv>)

  /** The octets an item was read from: identifier, length, content. */
  function TlvOctets(t: Tlv): seq<byte>
    decreases t, 1
  {
    t.header.tagOctets + t.header.lengthOctets + ContentOctets(t.content)
  }

  function ContentOctets(c: Content): seq<byte>
    decreases c, 0
  {
    match c
    case Octets(o) => o
    case Items(items) => ItemsOctets(items)
  }

  /** The items of a content, concatenated in order. */
  function ItemsOctets(items: seq<Tlv>): seq<byte>
    decreases items, 0
  {
    if items == [] then [] else TlvOctets(items[0]) + ItemsOctets(items[1..])
  }

  /** END-OF-CONTENTS (X.690 section 8.1.5): UNIVERSAL tag 0. */
  predicate IsEndOfContents(h: Header) {
    h.tag == 0 && h.tagClass == Universal
  }

  /** The octets of a sequence of items are those of its first part
      followed by those of its last item. */
  lemma {:induction false} ItemsOctetsSnoc(items: seq<Tlv>, t: Tlv)
    ensures ItemsOctets(items + [t]) == ItemsOctets(items) + TlvOctets(t)
  {
    if items == [] {
      assert items + [t] == [t];
    } else {
      assert (items + [t])[1..] == items[1..] + [t];
      ItemsOctetsSnoc(items[1..], t);
    }
  }

  /** The octets of two runs of items are concatenated. */
  lemma {:induction false} ItemsOctetsAppend(a: seq<Tlv>, b: seq<Tlv>)
    ensures ItemsOctets(a + b) == ItemsOctets(a) + ItemsOctets(b)
    decreases |a|
  {
    if a == [] {
      assert a + b == b;
    } else {
      assert (a + b)[1..] == a[1..] + b;
      ItemsOctetsAppend(a[1..], b);
    }
  }
}
