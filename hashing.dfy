/** Password hashing (`make_password`, `check_password`) and the sha256
    fingerprint of a token, as injective functions: a hash is a term that
    remembers its salt and the raw password it was made from, and a
    fingerprint is a term that remembers the text it was taken of. */
module Hashing {

  /** The value of a `password` column: either text that was never hashed,
      or a hash `algorithm$iterations$salt$digest` made by `make_password`
      from a raw password with a random salt. */
  datatype Password = Plain(text: string) | Hashed(salt: nat, raw: string)

  /** `make_password(raw)`; the random salt is a parameter. */
  function MakePassword(raw: string, salt: nat): (p: Password)
    ensures p.Hashed? && p.raw == raw
  {
    Hashed(salt, raw)
  }

  /** `check_password(raw, encoded)`: true exactly when the stored value is a
      hash of `raw`, whatever its salt; text that is not a hash never
      matches. */
  predicate CheckPassword(raw: string, stored: Password) {
    stored.Hashed? && stored.raw == raw
  }

  /** Python's `bool(password)`: every hash is non-empty text. */
  predicate NonEmpty(p: Password) {
    p.Hashed? || p.text != ""
  }

  /** `"$" in password`: every hash contains the `$` separators. */
  predicate HasDollar(p: Password) {
    p.Hashed? || '$' in p.text
  }

  /** The guard of `save()`: a non-empty password without `$` is taken for a
      raw password and hashed; anything else is stored as it is. */
  function HashOnSave(p: Password, salt: nat): (q: Password)
    ensures NonEmpty(p) && !HasDollar(p) ==> q == MakePassword(p.text, salt)
    ensures !NonEmpty(p) || HasDollar(p) ==> q == p
  {
    if NonEmpty(p) && !HasDollar(p) then MakePassword(p.text, salt) else p
  }

  /** After a save the password is a hash, empty, or text containing `$`;
      saving again changes nothing, whatever the new salt. */
  lemma SaveIdempotent(p: Password, s1: nat, s2: nat)
    ensures var q := HashOnSave(p, s1);
            && (q.Hashed? || q == Plain("") || (q.Plain? && '$' in q.text))
            && HashOnSave(q, s2) == q
  {
  }

  /** A password set by `set_password` is checked by exactly the raw
      password it was made from, and a save does not disturb it. */
  lemma SetThenCheck(raw: string, other: string, salt: nat, saveSalt: nat)
    ensures CheckPassword(raw, HashOnSave(MakePassword(raw, salt), saveSalt))
    ensures CheckPassword(other, MakePassword(raw, salt)) <==> other == raw
  {
  }

  /** A raw password assigned to the field and then saved is hashed and
      checks, unless it is empty or contains `$`: then it stays in clear
      and no raw password ever checks against it. */
  lemma SaveRawPassword(raw: string, other: string, salt: nat)
    ensures raw != "" && '$' !in raw ==> CheckPassword(raw, HashOnSave(Plain(raw), salt))
    ensures raw == "" || '$' in raw ==> !CheckPassword(other, HashOnSave(Plain(raw), salt))
  {
  }

  /** `hashlib.sha256(token.encode()).hexdigest()`, as a term that remembers
      the text it was taken of. */
  datatype Digest = Sha256(data: string)

  /** Two texts have the same fingerprint only when they are equal. */
  function Fingerprint(token: string): (d: Digest)
    ensures forall t: string :: Sha256(t) == d <==> t == token
  {
    Sha256(token)
  }
}
