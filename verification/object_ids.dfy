/** Document identifiers. A stored `_id` is kept as its text, which is lower-case
    hexadecimal. A route or query parameter is compared with stored identifiers only
    after the query casts it to an `ObjectId`, which ignores letter case (`ParamId`);
    a `toString()` comparison in a controller compares the raw text instead. */
module ObjectIds {
  import opened Wrappers
  import JsText

  type Id = string

  predicate IsHexDigit(c: char) {
    ('0' <= c <= '9') || ('a' <= c <= 'f') || ('A' <= c <= 'F')
  }

  /** `isValidObjectId` on a string: 24 hexadecimal digits. */
  predicate IsValidObjectId(s: string) {
    |s| == 24 && forall i :: 0 <= i < |s| ==> IsHexDigit(s[i])
  }

  /** The text of a stored `_id`: 24 lower-case hexadecimal digits. */
  predicate IsCanonicalId(s: string) {
    |s| == 24 && forall i :: 0 <= i < |s| ==> ('0' <= s[i] <= '9') || ('a' <= s[i] <= 'f')
  }

  /** The `_id` a parameter casts to in a query (`ObjectId(p)`): the twelve bytes its
      hexadecimal text spells, written back as lower-case text. */
  function ParamId(p: Option<string>): (r: Id)
    requires p.Some?
    ensures |r| == |p.value|
  {
    JsText.Lower(p.value)
  }

  /** A parameter that passes the guard casts to the text of a stored `_id`. */
  lemma CastIsCanonical(p: Option<string>)
    requires p.Some? && IsValidObjectId(p.value)
    ensures IsCanonicalId(ParamId(p))
  {
    var r := ParamId(p);
    forall i | 0 <= i < |r| ensures ('0' <= r[i] <= '9') || ('a' <= r[i] <= 'f') {
      if JsText.IsUpper(p.value[i]) {
        assert r[i] as int == p.value[i] as int + 32;
      }
    }
  }

  /** The text of a stored `_id`, passed as a parameter, casts back to itself, and it is
      a valid identifier. */
  lemma CastKeepsCanonical(s: string)
    requires IsCanonicalId(s)
    ensures IsValidObjectId(s)
    ensures ParamId(Some(s)) == s
  {
    var r := ParamId(Some(s));
    forall i | 0 <= i < |s| ensures r[i] == s[i] {
      assert !JsText.IsUpper(s[i]);
    }
  }

  /** `!id || !isValidObjectId(id)` for a route or query parameter. */
  predicate InvalidIdParam(p: Option<string>) {
    JsText.Falsy(p) || !IsValidObjectId(p.value)
  }

  /** A parameter passes the guard exactly when it is present and a valid identifier. */
  lemma InvalidIdParamIff(p: Option<string>)
    ensures !InvalidIdParam(p) <==> p.Some? && IsValidObjectId(p.value)
  {
  }
}
