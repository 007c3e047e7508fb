/** The token database: an interning table from (identifier, structural hash) to a token
    id, and from a token id to its `AbstractToken` record. The table is modelled as the
    sequence of stored entries in insertion order; a token id is a position in it. */
module TokenDatabase {
  import opened Wrappers

  type FileId = int
  type TokenId = int

  /** `wxNOT_FOUND`. */
  const NotFound: int := -1

  /** The kinds of `TokenType`; every kind but `TokenType_Unknown` is one bit. */
  datatype TokenType = Unknown | FuncDecl | VarDecl | ParmDecl | ScopeDecl

  function TokenTypeValue(t: TokenType): bv8 {
    match t
    case Unknown => 0
    case FuncDecl => 1 << 0
    case VarDecl => 1 << 1
    case ParmDecl => 1 << 2
    case ScopeDecl => 1 << 3
  }

  predicate IsSingleBit(b: bv8) {
    b != 0 && b & (b - 1) == 0
  }

  /** `TokenType_Unknown` is 0 and the four kinds are distinct single bits, so a mask made
      by OR-ing two kinds contains exactly those two. */
  lemma TokenTypeBits(t: TokenType, u: TokenType, k: TokenType)
    ensures TokenTypeValue(Unknown) == 0
    ensures t != Unknown ==> IsSingleBit(TokenTypeValue(t))
    ensures t != u ==> TokenTypeValue(t) & TokenTypeValue(u) == 0
    ensures k != Unknown ==>
              ((TokenTypeValue(t) | TokenTypeValue(u)) & TokenTypeValue(k) != 0 <==> k == t || k == u)
  {
  }

  /** `AbstractToken`, immutable once made. */
  datatype AbstractToken = AbstractToken(
    tokenType: TokenType,
    fileId: FileId,
    line: int,
    column: int,
    displayName: string,
    tokenHash: u32)

  function NewAbstractToken(typ: TokenType, fId: FileId, ln: int, col: int, displayName: string,
                            tknHash: u32): (t: AbstractToken)
    ensures t.tokenType == typ && t.fileId == fId && t.line == ln && t.column == col
    ensures t.displayName == displayName && t.tokenHash == tknHash
  {
    AbstractToken(typ, fId, ln, col, displayName, tknHash)
  }

  /** The copy constructor. */
  function CopyAbstractToken(other: AbstractToken): (t: AbstractToken)
    ensures t.tokenType == other.tokenType && t.fileId == other.fileId
    ensures t.line == other.line && t.column == other.column
    ensures t.displayName == other.displayName && t.tokenHash == other.tokenHash
  {
    AbstractToken(other.tokenType, other.fileId, other.line, other.column, other.displayName,
                  other.tokenHash)
  }

  /** One stored token with the identifier it was inserted under. */
  datatype TokenEntry = TokenEntry(identifier: string, token: AbstractToken)

  predicate HasKey(e: TokenEntry, identifier: string, tokenHash: u32) {
    e.identifier == identifier && e.token.tokenHash == tokenHash
  }

  /** No two entries share an (identifier, hash) key. */
  predicate KeysUnique(entries: seq<TokenEntry>) {
    forall i, j :: 0 <= i < j < |entries| ==>
      !HasKey(entries[j], entries[i].identifier, entries[i].token.tokenHash)
  }

  /** The id stored under the key, or wxNOT_FOUND. */
  function Lookup(entries: seq<TokenEntry>, identifier: string, tokenHash: u32): (r: int)
    ensures r == NotFound <==> forall i :: 0 <= i < |entries| ==> !HasKey(entries[i], identifier, tokenHash)
    ensures r != NotFound ==> 0 <= r < |entries| && HasKey(entries[r], identifier, tokenHash)
  {
    if entries == [] then NotFound
    else if HasKey(entries[|entries| - 1], identifier, tokenHash) then |entries| - 1
    else Lookup(entries[..|entries| - 1], identifier, tokenHash)
  }

  /** `InsertToken` on the table: the existing id when the key is present (the new record
      is discarded), otherwise a new entry at the next id. */
  function Insert(entries: seq<TokenEntry>, identifier: string, token: AbstractToken): (seq<TokenEntry>, TokenId) {
    var i := Lookup(entries, identifier, token.tokenHash);
    if i != NotFound then (entries, i)
    else (entries + [TokenEntry(identifier, token)], |entries|)
  }

  /** `GetToken` on the table. */
  function TokenAt(entries: seq<TokenEntry>, tId: TokenId): Option<AbstractToken> {
    if 0 <= tId < |entries| then Some(entries[tId].token) else None
  }

  /** With unique keys, the entry holding a key is the one Lookup finds. */
  lemma LookupUnique(entries: seq<TokenEntry>, identifier: string, tokenHash: u32, k: int)
    requires KeysUnique(entries)
    requires 0 <= k < |entries| && HasKey(entries[k], identifier, tokenHash)
    ensures Lookup(entries, identifier, tokenHash) == k
  {
  }

  /** Interning keeps the keys unique. */
  lemma InsertKeepsKeysUnique(entries: seq<TokenEntry>, identifier: string, token: AbstractToken)
    requires KeysUnique(entries)
    ensures KeysUnique(Insert(entries, identifier, token).0)
  {
  }

  /** After inserting, the key looks up to the id returned, that id holds a record, and
      the record is the new token unless the key was already stored (first writer wins). */
  lemma InsertThenLookup(entries: seq<TokenEntry>, identifier: string, token: AbstractToken)
    requires KeysUnique(entries)
    ensures var (after, id) := Insert(entries, identifier, token);
      Lookup(after, identifier, token.tokenHash) == id && TokenAt(after, id).Some? &&
      (Lookup(entries, identifier, token.tokenHash) == NotFound ==> TokenAt(after, id) == Some(token)) &&
      (Lookup(entries, identifier, token.tokenHash) != NotFound ==>
         after == entries && TokenAt(after, id) == TokenAt(entries, Lookup(entries, identifier, token.tokenHash)))
  {
    var (after, id) := Insert(entries, identifier, token);
    InsertKeepsKeysUnique(entries, identifier, token);
    LookupUnique(after, identifier, token.tokenHash, id);
  }

  /** Inserting the same key twice gives the same id and stores nothing more. */
  lemma InsertIdempotent(entries: seq<TokenEntry>, identifier: string, token: AbstractToken, other: AbstractToken)
    requires KeysUnique(entries)
    requires other.tokenHash == token.tokenHash
    ensures var (after, id) := Insert(entries, identifier, token);
      Insert(after, identifier, other) == (after, id)
  {
    InsertThenLookup(entries, identifier, token);
  }

  /** Interning never invalidates an id issued before, nor changes its record. */
  lemma InsertKeepsIssuedIds(entries: seq<TokenEntry>, identifier: string, token: AbstractToken, tId: TokenId)
    requires 0 <= tId < |entries|
    ensures TokenAt(Insert(entries, identifier, token).0, tId) == TokenAt(entries, tId)
  {
  }

  /** `TokenDatabase`, reduced to its token table. */
  class TokenDatabase {
    var tokens: seq<TokenEntry>

    ghost predicate Valid()
      reads this
    {
      KeysUnique(tokens)
    }

    constructor ()
      ensures Valid() && tokens == []
    {
      tokens := [];
    }

    /** `GetTokenId`: the id stored under (identifier, tokenHash), or wxNOT_FOUND. */
    method GetTokenId(identifier: string, tokenHash: u32) returns (id: TokenId)
      ensures id == NotFound <==> forall i :: 0 <= i < |tokens| ==> !HasKey(tokens[i], identifier, tokenHash)
      ensures id != NotFound ==> 0 <= id < |tokens| && HasKey(tokens[id], identifier, tokenHash)
    {
      var i := 0;
      while i < |tokens|
        invariant 0 <= i <= |tokens|
        invariant forall k :: 0 <= k < i ==> !HasKey(tokens[k], identifier, tokenHash)
      {
        if HasKey(tokens[i], identifier, tokenHash) {
          return i;
        }
        i := i + 1;
      }
      return NotFound;
    }

    /** `InsertToken`: duplicate tokens are discarded. */
    method InsertToken(identifier: string, token: AbstractToken) returns (id: TokenId)
      requires Valid()
      modifies this
      ensures Valid()
      ensures (tokens, id) == Insert(old(tokens), identifier, token)
    {
      InsertKeepsKeysUnique(tokens, identifier, token);
      id := GetTokenId(identifier, token.tokenHash);
      if id == NotFound {
        id := |tokens|;
        tokens := tokens + [TokenEntry(identifier, token)];
      }
    }

    /** `GetToken`: the record of an issued id; `None` for an id never issued. */
    method GetToken(tId: TokenId) returns (t: Option<AbstractToken>)
      ensures 0 <= tId < |tokens| ==> t == Some(tokens[tId].token)
      ensures !(0 <= tId < |tokens|) ==> t == None
    {
      if 0 <= tId < |tokens| {
        t := Some(tokens[tId].token);
      } else {
        t := None;
      }
    }
  }
}
