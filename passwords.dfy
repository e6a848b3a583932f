/**
 * The BCrypt password encoder. Hashing is not modelled: a stored hash keeps the salt the
 * encoder drew and stands for exactly one raw password, so `matches` accepts that raw
 * password and no other.
 */
module Passwords {

  datatype PasswordHash = BCrypt(salt: nat, secret: string)

  /** `passwordEncoder.matches(raw, hash)` */
  predicate Matches(raw: string, h: PasswordHash) {
    h.secret == raw
  }

  /** `passwordEncoder.encode(raw)`; the salt is the encoder's random draw. */
  function Encode(raw: string, salt: nat): (h: PasswordHash)
    ensures Matches(raw, h)
    ensures forall other :: Matches(other, h) ==> other == raw
  {
    BCrypt(salt, raw)
  }
}
