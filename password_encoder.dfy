/** The password encoder, as a deterministic stand-in: encoding is injective and an encoded
    password matches exactly the raw password it was made from */
module PasswordEncoder {

  import opened Wrappers
  import opened Errors

  /** What the encoder says when asked to encode null */
  const RAW_REQUIRED: string := "rawPassword cannot be null"

  /** The mark every encoded password starts with */
  const HASH_MARK: string := "$2a$"

  function Encode(raw: Option<string>): (r: Result<string, Exception>)
    ensures r.Failure? <==> raw.None?
    ensures r.Failure? ==> r.error == IllegalArgument(RAW_REQUIRED)
    ensures r.Success? ==> |r.value| == |HASH_MARK| + |raw.value| && r.value[..|HASH_MARK|] == HASH_MARK
  {
    if raw.None? then Failure(IllegalArgument(RAW_REQUIRED)) else Success(HASH_MARK + raw.value)
  }

  /** matches: a null stored password matches nothing */
  predicate Matches(raw: string, encoded: Option<string>) {
    encoded.Some? && Encode(Some(raw)) == Success(encoded.value)
  }

  /** Two different passwords never encode alike */
  lemma EncodeInjective(a: string, b: string)
    requires Encode(Some(a)) == Encode(Some(b))
    ensures a == b
  {
    var ea := Encode(Some(a)).value;
    assert a == ea[|HASH_MARK|..];
    assert b == Encode(Some(b)).value[|HASH_MARK|..];
  }

  /** A password matches its own encoding and no other password's */
  lemma MatchesOwnEncoding(raw: string, other: string)
    ensures Matches(raw, Some(Encode(Some(raw)).value))
    ensures Matches(other, Some(Encode(Some(raw)).value)) ==> other == raw
    ensures !Matches(raw, None)
  {
    if Matches(other, Some(Encode(Some(raw)).value)) {
      EncodeInjective(other, raw);
    }
  }
}
