/**
 * The token shape the scanner produces and the factory contract it relies on
 * (src/syndantic/token.py).  Position metadata is not modelled: the scanner never
 * passes it (src/syndantic/tokenizer/regex.py:322), so every position is absent.
 */
module Tokens {
  import opened Wrappers

  /** A token: its matched image, its kind, and the special token that preceded it. */
  datatype Token = Token(image: string, kind: Option<string>, special: Option<Token>)

  /**
   * A token factory: image, kind and pending special token in, a token or "no token"
   * (construction declined) out.
   */
  type Factory = (string, Option<string>, Option<Token>) -> Option<Token>

  /** The default factory `syndantic.token:SimpleToken`: it always builds a token. */
  function SimpleToken(image: string, kind: Option<string>, special: Option<Token>): Option<Token>
  {
    Some(Token(image, kind, special))
  }
}
