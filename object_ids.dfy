/** Document keys: MongoDB ObjectIds, their 24-digit hexadecimal text form, and the
    `_id` filters that the menu, user and cart routes build from a path parameter. */
module ObjectIds {
  import opened Common

  type Byte = x: int | 0 <= x < 256

  /** An ObjectId is twelve bytes; `new ObjectId(hex)` produces one from 24 hex digits. */
  type Oid = b: seq<Byte> | |b| == 12 witness [0, 0, 0, 0, 0, 0, 0, 0, 0, 0, 0, 0]

  /** A document's `_id`: either a plain string or an ObjectId. The two never compare equal. */
  datatype Key = StrKey(str: string) | OidKey(oid: Oid)

  predicate IsHexDigit(c: char) {
    '0' <= c <= '9' || 'a' <= c <= 'f' || 'A' <= c <= 'F'
  }

  function HexVal(c: char): (v: nat)
    requires IsHexDigit(c)
    ensures v < 16
  {
    if '0' <= c <= '9' then c as int - '0' as int
    else if 'a' <= c <= 'f' then c as int - 'a' as int + 10
    else c as int - 'A' as int + 10
  }

  /** The lower-case digit of a value below 16, as `ObjectId.toHexString` writes it. */
  function HexChar(v: nat): (c: char)
    requires v < 16
    ensures IsHexDigit(c) && HexVal(c) == v
    ensures !('A' <= c <= 'F')
  {
    if v < 10 then ('0' as int + v) as char else ('a' as int + v - 10) as char
  }

  predicate AllHex(s: string) {
    forall i :: 0 <= i < |s| ==> IsHexDigit(s[i])
  }

  /** The test `/^[0-9a-fA-F]{24}$/.test(id)`: exactly 24 hex digits, nothing else. */
  predicate IsHex24(s: string) {
    |s| == 24 && AllHex(s)
  }

  function LowerChar(c: char): char {
    if 'A' <= c <= 'Z' then (c as int - 'A' as int + 'a' as int) as char else c
  }

  function Lower(s: string): (r: string)
    ensures |r| == |s|
  {
    seq(|s|, i requires 0 <= i < |s| => LowerChar(s[i]))
  }

  /** Every pair of hex digits becomes one byte, the first digit being the high half. */
  function DecodeHex(s: string): (b: seq<Byte>)
    requires |s| % 2 == 0 && AllHex(s)
    ensures |b| == |s| / 2
  {
    if s == [] then [] else [16 * HexVal(s[0]) + HexVal(s[1])] + DecodeHex(s[2..])
  }

  function EncodeHex(b: seq<Byte>): (s: string)
    ensures |s| == 2 * |b| && AllHex(s)
  {
    if b == [] then [] else [HexChar(b[0] / 16), HexChar(b[0] % 16)] + EncodeHex(b[1..])
  }

  /** `new ObjectId(id)` for a string id: defined on 24 hex digits and throwing otherwise
      (None). */
  function ParseOid(s: string): (r: Option<Oid>)
    ensures r.Some? <==> IsHex24(s)
  {
    if IsHex24(s) then Some(DecodeHex(s)) else None
  }

  /** `ObjectId.toHexString`: the canonical text form of an ObjectId. */
  function OidHex(o: Oid): (s: string)
    ensures |s| == 24 && AllHex(s)
  {
    EncodeHex(o)
  }

  lemma {:induction false} DecodeEncode(b: seq<Byte>)
    ensures DecodeHex(EncodeHex(b)) == b
  {
    if b != [] {
      var s := EncodeHex(b);
      assert s[2..] == EncodeHex(b[1..]);
      DecodeEncode(b[1..]);
    }
  }

  lemma HexCharOfHexVal(c: char)
    requires IsHexDigit(c)
    ensures HexChar(HexVal(c)) == LowerChar(c)
  {
  }

  /** Re-encoding decoded hex gives the lower-case form of the input. */
  lemma {:induction false} EncodeDecode(s: string)
    requires |s| % 2 == 0 && AllHex(s)
    ensures EncodeHex(DecodeHex(s)) == Lower(s)
  {
    if s != [] {
      var v := 16 * HexVal(s[0]) + HexVal(s[1]);
      assert v / 16 == HexVal(s[0]) && v % 16 == HexVal(s[1]);
      HexCharOfHexVal(s[0]);
      HexCharOfHexVal(s[1]);
      EncodeDecode(s[2..]);
      assert Lower(s) == [LowerChar(s[0]), LowerChar(s[1])] + Lower(s[2..]);
    }
  }

  /** An ObjectId parses back from its canonical text form. */
  lemma ParseCanonical(o: Oid)
    ensures ParseOid(OidHex(o)) == Some(o)
  {
    DecodeEncode(o);
  }

  /** Parsing never loses information beyond letter case: a parsed ObjectId's canonical
      text is the lower-cased input. */
  lemma ParsedCanonicalForm(s: string)
    requires IsHex24(s)
    ensures OidHex(ParseOid(s).value) == Lower(s)
  {
    EncodeDecode(s);
  }

  /** Two 24-hex ids name the same ObjectId exactly when they agree up to letter case. */
  lemma ParseOidIgnoresCase(s: string, t: string)
    requires IsHex24(s) && IsHex24(t)
    ensures ParseOid(s) == ParseOid(t) <==> Lower(s) == Lower(t)
  {
    EncodeDecode(s);
    EncodeDecode(t);
    if Lower(s) == Lower(t) {
      DecodeEncode(DecodeHex(s));
      DecodeEncode(DecodeHex(t));
    }
  }

  /** An `_id` filter: `{ _id: k }` or `{ $or: [{ _id: a }, { _id: b }] }`. */
  datatype IdQuery = IdIs(key: Key) | IdIsEither(first: Key, second: Key)

  predicate Selects(q: IdQuery, k: Key) {
    match q
    case IdIs(a) => k == a
    case IdIsEither(a, b) => k == a || k == b
  }

  /** The filter that `GET /menu/:id` and `PATCH /menu/:id` build: the string key alone,
      or, for an id of 24 hex digits, the string key or the ObjectId parsed from it. */
  function MenuQuery(id: string): (q: IdQuery)
    ensures Selects(q, StrKey(id))
  {
    if IsHex24(id) then IdIsEither(StrKey(id), OidKey(ParseOid(id).value)) else IdIs(StrKey(id))
  }

  /** The dual-key match: does the menu filter for `id` select a document keyed `k`? */
  predicate Matches(id: string, k: Key) {
    Selects(MenuQuery(id), k)
  }

  /** The filter `{ _id: new ObjectId(id) }` of the delete and promote routes; None when the
      ObjectId constructor throws. */
  function OidQuery(id: string): (r: Option<IdQuery>)
    ensures r.Some? <==> IsHex24(id)
    ensures r.Some? ==> forall k :: Selects(r.value, k) <==> k == OidKey(ParseOid(id).value)
  {
    match ParseOid(id)
    case None => None
    case Some(o) => Some(IdIs(OidKey(o)))
  }

  /** Both directions of the dual match, by the shape of the id. */
  lemma MatchesCases(id: string, k: Key)
    ensures IsHex24(id) ==> (Matches(id, k) <==> k == StrKey(id) || k == OidKey(ParseOid(id).value))
    ensures !IsHex24(id) ==> (Matches(id, k) <==> k == StrKey(id))
  {
  }

  /** A string-keyed document is matched only by its own string. */
  lemma StrKeyMatches(id: string, s: string)
    ensures Matches(id, StrKey(s)) <==> s == id
  {
  }

  /** An ObjectId-keyed document is matched by exactly the 24-hex ids that spell its
      ObjectId in either letter case. */
  lemma OidKeyMatches(id: string, o: Oid)
    ensures Matches(id, OidKey(o)) <==> IsHex24(id) && Lower(id) == OidHex(o)
  {
    if IsHex24(id) {
      ParsedCanonicalForm(id);
      if Lower(id) == OidHex(o) {
        ParseCanonical(o);
        ParseOidIgnoresCase(id, OidHex(o));
        // the canonical text is already lower-case, being Lower(id)
        assert Lower(OidHex(o)) == OidHex(o) by {
          assert OidHex(o) == Lower(id);
        }
      }
    }
  }

  /** Identifier duality: the canonical text of an ObjectId selects both the document stored
      under that ObjectId and a legacy document stored under the same text. */
  lemma CanonicalIdMatchesBothForms(o: Oid)
    ensures Matches(OidHex(o), OidKey(o))
    ensures Matches(OidHex(o), StrKey(OidHex(o)))
  {
    ParseCanonical(o);
  }

  /** The delete filter is narrower than the dual match: it selects only ObjectId keys, and
      only ones the dual match also selects. */
  lemma OidQueryNarrowerThanMatch(id: string, k: Key)
    requires OidQuery(id).Some? && Selects(OidQuery(id).value, k)
    ensures k.OidKey? && Matches(id, k)
  {
  }
}
