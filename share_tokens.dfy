/**
 * The in-memory share-token dictionary: tokens are the lowercase hex form of
 * 16 random bytes, and a lookup maps a token to the file id it was issued for.
 */
module ShareTokens {
  import opened Wrappers

  type Bytes = seq<bv8>

  /** A lowercase hexadecimal digit. */
  predicate IsHexChar(c: char) {
    ('0' <= c <= '9') || ('a' <= c <= 'f')
  }

  /** What `randomBytes(16).toString('hex')` produces: 32 lowercase hex digits. */
  predicate IsHexToken(t: string) {
    |t| == 32 && forall i :: 0 <= i < |t| ==> IsHexChar(t[i])
  }

  function HexDigit(n: int): (c: char)
    requires 0 <= n < 16
    ensures IsHexChar(c)
  {
    if n < 10 then ('0' as int + n) as char else ('a' as int + n - 10) as char
  }

  /** Digit value of a hex digit; the inverse of `HexDigit`. */
  function HexValue(c: char): (n: int)
    requires IsHexChar(c)
    ensures 0 <= n < 16 && HexDigit(n) == c
  {
    if c <= '9' then c as int - '0' as int else c as int - 'a' as int + 10
  }

  /** `Buffer.toString('hex')`: two digits per byte, high nibble first. */
  function Hex(b: Bytes): (t: string)
    ensures |t| == 2 * |b|
    ensures forall i :: 0 <= i < |t| ==> IsHexChar(t[i])
  {
    if |b| == 0 then ""
    else [HexDigit(b[0] as int / 16), HexDigit(b[0] as int % 16)] + Hex(b[1..])
  }

  /** Sixteen random bytes give a 32-digit hex token. */
  lemma HexOfSixteenBytes(b: Bytes)
    requires |b| == 16
    ensures IsHexToken(Hex(b))
  {
  }

  /** A byte value is determined by its two hex digits. */
  lemma HexPairInjective(x: int, y: int)
    requires 0 <= x < 256 && 0 <= y < 256
    requires HexDigit(x / 16) == HexDigit(y / 16)
    requires HexDigit(x % 16) == HexDigit(y % 16)
    ensures x == y
  {
    assert x / 16 == HexValue(HexDigit(x / 16)) == y / 16;
    assert x % 16 == HexValue(HexDigit(x % 16)) == y % 16;
  }

  /** Different random bytes give different tokens. */
  lemma {:induction false} HexInjective(a: Bytes, b: Bytes)
    requires Hex(a) == Hex(b)
    ensures a == b
  {
    if |a| > 0 {
      var ha, hb := Hex(a), Hex(b);
      assert ha[0] == hb[0] && ha[1] == hb[1];
      HexPairInjective(a[0] as int, b[0] as int);
      assert ha[2..] == Hex(a[1..]);
      assert hb[2..] == Hex(b[1..]);
      HexInjective(a[1..], b[1..]);
    }
  }

  /**
   * The names a plain `{}` object inherits from `Object.prototype`: reading
   * any of them on the dictionary yields a function (or, for `__proto__`, an
   * object), never `undefined`.
   */
  const ObjectPrototypeMembers: set<string> := {
    "constructor", "__defineGetter__", "__defineSetter__", "hasOwnProperty",
    "__lookupGetter__", "__lookupSetter__", "isPrototypeOf", "propertyIsEnumerable",
    "toString", "valueOf", "__proto__", "toLocaleString" }

  /** No hex token is the name of an inherited member, since none of those names has 32 characters. */
  lemma HexTokenNotInherited(t: string)
    requires IsHexToken(t)
    ensures t !in ObjectPrototypeMembers
  {
  }

  /** What `sharedFiles[token] || null` evaluates to. */
  datatype Lookup = NullResult | FileIdResult(id: string) | InheritedMember(member: string)

  /**
   * The lookup as written: an own entry is returned unless it is the empty
   * string (falsy, so `|| null` turns it into null); a name inherited from
   * `Object.prototype` yields that member, which is truthy.
   */
  function LookupAsWritten(tokens: map<string, string>, token: string): (r: Lookup)
    ensures r.FileIdResult? ==> token in tokens && r.id == tokens[token] && r.id != ""
    ensures r.InheritedMember? ==> token !in tokens && token in ObjectPrototypeMembers
    ensures r.NullResult? <==> (token in tokens && tokens[token] == "") || (token !in tokens && token !in ObjectPrototypeMembers)
  {
    if token in tokens then (if tokens[token] != "" then FileIdResult(tokens[token]) else NullResult)
    else if token in ObjectPrototypeMembers then InheritedMember(token)
    else NullResult
  }

  /** The intended lookup: only issued tokens resolve, each to the id it was issued for. */
  function Resolve(tokens: map<string, string>, token: string): (r: Option<string>)
    ensures r.Some? <==> token in tokens
    ensures r.Some? ==> r.value == tokens[token]
  {
    if token in tokens then Some(tokens[token]) else None
  }

  /**
   * As written, a token that was never issued but names an inherited member
   * resolves to something other than null: with only hex tokens issued,
   * `getFileIdByToken("constructor")` is the `Object` constructor.
   */
  lemma PrototypeNameResolves(tokens: map<string, string>)
    requires forall t :: t in tokens ==> IsHexToken(t)
    ensures LookupAsWritten(tokens, "constructor") == InheritedMember("constructor")
    ensures Resolve(tokens, "constructor") == None
  {
    assert |"constructor"| != 32;
    assert !IsHexToken("constructor");
  }

  /** On names that are not inherited members and ids that are not empty, the two lookups agree. */
  lemma LookupsAgree(tokens: map<string, string>, token: string)
    requires token !in ObjectPrototypeMembers
    requires forall t :: t in tokens ==> tokens[t] != ""
    ensures Resolve(tokens, token).Some? <==> LookupAsWritten(tokens, token).FileIdResult?
    ensures Resolve(tokens, token).Some? ==> Resolve(tokens, token).value == LookupAsWritten(tokens, token).id
  {
  }

  /** After issuing `t` for `id`, `t` resolves to `id` and every other token resolves as before. */
  lemma IssueThenResolve(tokens: map<string, string>, t: string, id: string, other: string)
    requires other != t
    ensures Resolve(tokens[t := id], t) == Some(id)
    ensures Resolve(tokens[t := id], other) == Resolve(tokens, other)
  {
  }

  /** A token never issued resolves to nothing. */
  lemma NeverIssuedResolvesToNothing(tokens: map<string, string>, t: string)
    requires t !in tokens
    ensures Resolve(tokens, t) == None
  {
  }
}
