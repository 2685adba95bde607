/**
 * Text as the byte sequence UTF-8 gives it. The identifiers in this system are
 * ASCII (Guid strings, decimal numbers), so one character is one byte and a
 * string's `.Length` is the length of its byte form.
 */
module Texts {
  import opened Bytes
  import opened Wrappers

  type Text = seq<byte>

  const Hyphen: byte := 45
  const Zero: byte := 48

  /** Int32.ToString() for a non-negative value: decimal digits, no leading zeros. */
  function Decimal(n: nat): (t: Text)
    ensures |t| >= 1
  {
    if n < 10 then [Zero + n] else Decimal(n / 10) + [Zero + n % 10]
  }

  /** Every character of a decimal string is a digit. */
  lemma {:induction false} DecimalIsDigits(n: nat)
    ensures forall c :: c in Decimal(n) ==> Zero <= c <= Zero + 9
  {
    if n >= 10 {
      DecimalIsDigits(n / 10);
    }
  }

  /** Distinct numbers have distinct decimal strings. */
  lemma {:induction false} DecimalInjective(a: nat, b: nat)
    ensures Decimal(a) == Decimal(b) ==> a == b
  {
    if Decimal(a) == Decimal(b) && a >= 10 && b >= 10 {
      var da, db := Decimal(a), Decimal(b);
      assert da[..|da| - 1] == Decimal(a / 10);
      assert db[..|db| - 1] == Decimal(b / 10);
      assert da[|da| - 1] == db[|db| - 1];
      DecimalInjective(a / 10, b / 10);
    }
  }

  /** A custom numeric format such as "yyyy" or "MM": at least `width` digits, zero-padded. */
  function ZeroPadded(n: nat, width: nat): (t: Text)
    ensures |t| >= width
  {
    var digits := Decimal(n);
    if |digits| >= width then digits else seq(width - |digits|, _ => Zero) + digits
  }

  datatype EncodeError = DestinationTooSmall

  /**
   * Encoding.UTF8.GetBytes(text, span.Slice(offset)): copies the bytes of `text`
   * from `offset` on and returns how many were written; an ArgumentException
   * when they do not fit. On failure nothing is promised about `span`.
   */
  method GetBytes(text: Text, span: array<byte>, offset: nat) returns (r: Result<nat, EncodeError>)
    requires offset <= span.Length
    modifies span
    ensures r.Ok? <==> offset + |text| <= span.Length
    ensures r.Ok? ==> r.value == |text|
    ensures r.Ok? ==> span[offset..offset + |text|] == text
    ensures r.Ok? ==> span[..offset] == old(span[..offset])
    ensures r.Ok? ==> span[offset + |text|..] == old(span[offset + |text|..])
  {
    if span.Length - offset < |text| {
      return Err(DestinationTooSmall);
    }
    var i := 0;
    while i < |text|
      invariant 0 <= i <= |text|
      invariant forall j :: 0 <= j < i ==> span[offset + j] == text[j]
      invariant forall j :: 0 <= j < span.Length && !(offset <= j < offset + i) ==> span[j] == old(span[j])
    {
      span[offset + i] := text[i];
      i := i + 1;
    }
    assert span[offset..offset + |text|] == text;
    assert span[..offset] == old(span[..offset]);
    assert span[offset + |text|..] == old(span[offset + |text|..]);
    r := Ok(|text|);
  }
}
