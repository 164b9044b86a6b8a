/** The token-kind table of types.js. A `TokenType` in the source is an
    object with a `label`; every entry of the table is a distinct object and
    `match` compares by identity. Here each entry is a distinct constructor,
    so identity becomes constructor equality. `createKeyword` makes a new
    type and registers it in the module's `keywords` map. */
module TokenTypes {

  datatype TokenType =
    | Num | BigInt | Eof
    | BracketL | BracketR | ParenL | ParenR | Comma | Dot
    | BitwiseAND
    | Keyword(name: string)   // made by `createKeyword`; the table itself holds none

  /** The ten entries of the `types` table, in declaration order. */
  const TABLE: seq<TokenType> := [Num, BigInt, Eof, BracketL, BracketR, ParenL, ParenR, Comma, Dot, BitwiseAND]

  function Label(t: TokenType): string {
    match t
    case Num => "num"
    case BigInt => "bigint"
    case Eof => "eof"
    case BracketL => "["
    case BracketR => "]"
    case ParenL => "("
    case ParenR => ")"
    case Comma => ","
    case Dot => "."
    case BitwiseAND => "&"
    case Keyword(name) => name
  }

  /** The table has ten pairwise distinct entries, none of them a keyword, and
      the punctuation entries are labelled with their own character. */
  lemma TableShape()
    ensures |TABLE| == 10
    ensures forall i, j :: 0 <= i < j < |TABLE| ==> TABLE[i] != TABLE[j]
    ensures forall t | t in TABLE :: !t.Keyword?
    ensures forall t | t in TABLE && t !in {Num, BigInt, Eof} :: |Label(t)| == 1
    ensures Label(BracketL) == "[" && Label(BracketR) == "]" && Label(ParenL) == "("
    ensures Label(ParenR) == ")" && Label(Comma) == "," && Label(Dot) == "." && Label(BitwiseAND) == "&"
  {
  }

  /** Distinct punctuation types carry distinct labels, so a label names its type. */
  lemma PunctuationLabelsDistinct(s: TokenType, t: TokenType)
    requires s in TABLE && t in TABLE && s != t
    ensures Label(s) != Label(t)
  {
  }

  /** The module-level `keywords` map of types.js. */
  class Keywords {
    var keywords: map<string, TokenType>

    constructor ()
      ensures keywords == map[]
    {
      keywords := map[];
    }

    /** `createKeyword(name)`: a new type labelled `name`, registered under `name`. */
    method CreateKeyword(name: string) returns (token: TokenType)
      modifies this
      ensures Label(token) == name && token !in TABLE
      ensures keywords == old(keywords)[name := token]
    {
      token := Keyword(name);
      keywords := keywords[name := token];
    }
  }
}
