/**
 * Model of Tokenize/Token.cs.
 *
 * A token pairs a type with its lexeme.  The C# class has public setters and is compared
 * by reference; here a token is a value, so two tokens with the same type and lexeme are
 * the same token.
 */
module Tokens {

  /** `Token<T>(type, lexeme)`. */
  datatype Token<T> = Token(tokenType: T, lexeme: string)

  /** `Token<T>(type)`: a token of `tokenType` whose lexeme is empty. */
  function TypeOnly<T>(tokenType: T): (t: Token<T>)
    ensures t.tokenType == tokenType && |t.lexeme| == 0
  {
    Token(tokenType, "")
  }
}
