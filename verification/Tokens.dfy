/**
 The two-level token dictionary (crates/wa-binary/src/tokens.rs). The tables are
 a parameter of the codec; only their shape is fixed.
 */
module Tokens {
  import opened Prelude
  import opened Text

  datatype Table = Table(single: seq<Bytes>, double: seq<seq<Bytes>>)

  const SINGLE_COUNT: nat := 236
  const DICTIONARY_COUNT: nat := 4
  const DICTIONARY_SIZE: nat := 256

  predicate TextToken(t: Bytes) {
    Utf8(t) && AT !in t
  }

  /** The facts about the shipped tables that the codec relies on. */
  predicate Shape(T: Table) {
    && |T.single| == SINGLE_COUNT
    && |T.double| == DICTIONARY_COUNT
    && (forall d :: 0 <= d < |T.double| ==> |T.double[d]| == DICTIONARY_SIZE)
    && T.single[0] == []
    && (forall i :: 0 <= i < |T.single| ==> TextToken(T.single[i]))
    && (forall d, i :: 0 <= d < |T.double| && 0 <= i < |T.double[d]| ==> TextToken(T.double[d][i]))
  }

  datatype Token = Token(dict: Option<nat>, index: nat)

  /** Position of the first entry equal to `v`. */
  function FirstIndex(table: seq<Bytes>, v: Bytes): (r: Option<nat>)
    ensures r.None? <==> v !in table
    ensures r.Some? ==> r.value < |table| && table[r.value] == v
    decreases |table|
  {
    if table == [] then None
    else if table[0] == v then Some(0)
    else
      match FirstIndex(table[1..], v)
      case None =>
        assert table == [table[0]] + table[1..];
        None
      case Some(i) => Some(i + 1)
  }

  /** The first dictionary, from `d` on, that holds `v`. */
  function FirstDouble(T: Table, v: Bytes, d: nat): (r: Option<Token>)
    requires d <= |T.double|
    ensures r.None? <==> forall e :: d <= e < |T.double| ==> v !in T.double[e]
    ensures r.Some? ==> r.value.dict.Some? && d <= r.value.dict.value < |T.double|
                        && r.value.index < |T.double[r.value.dict.value]|
                        && T.double[r.value.dict.value][r.value.index] == v
    decreases |T.double| - d
  {
    if d == |T.double| then None
    else
      match FirstIndex(T.double[d], v)
      case Some(i) => Some(Token(Some(d), i))
      case None => FirstDouble(T, v, d + 1)
  }

  /** `token_for`: the single-byte table first, then the dictionaries in order. */
  function TokenFor(T: Table, v: Bytes): (r: Option<Token>)
    ensures r.Some? && r.value.dict.None? ==> r.value.index < |T.single| && T.single[r.value.index] == v
    ensures r.Some? && r.value.dict.Some? ==>
              r.value.dict.value < |T.double| && r.value.index < |T.double[r.value.dict.value]|
              && T.double[r.value.dict.value][r.value.index] == v
    ensures r.None? <==> v !in T.single && forall d :: 0 <= d < |T.double| ==> v !in T.double[d]
  {
    match FirstIndex(T.single, v)
    case Some(i) => Some(Token(None, i))
    case None => FirstDouble(T, v, 0)
  }

  /** No token is a JID. */
  lemma TokenHasNoAt(T: Table, v: Bytes)
    requires Shape(T) && TokenFor(T, v).Some?
    ensures AT !in v
  {
    var t := TokenFor(T, v).value;
    if t.dict.None? {
      assert TextToken(T.single[t.index]);
    } else {
      assert TextToken(T.double[t.dict.value][t.index]);
    }
  }
}
