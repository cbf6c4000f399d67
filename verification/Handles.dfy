/** The byte store, and the two keys of it that a handle's name stands for. */
module Handles {
  import opened ByteCodec

  type Store = map<string, Bytes>

  const METADATA: string := "metadata::"

  function DataKey(name: string): string {
    name
  }

  function MetadataKey(name: string): string {
    METADATA + name
  }

  /** Neither name is the metadata key of the other. */
  predicate Apart(a: string, b: string) {
    DataKey(a) != MetadataKey(b) && DataKey(b) != MetadataKey(a)
  }

  /** No name of the set is the metadata key of another. */
  predicate NonColliding(names: set<string>) {
    forall a, b :: a in names && b in names ==> a != MetadataKey(b)
  }

  /** The data and metadata keys of the names are pairwise distinct. */
  predicate KeysDistinct(names: set<string>) {
    forall a, b :: a in names && b in names ==>
      && DataKey(a) != MetadataKey(b)
      && (a != b ==> DataKey(a) != DataKey(b) && MetadataKey(a) != MetadataKey(b))
  }

  lemma MetadataKeyInjective(a: string, b: string)
    ensures MetadataKey(a) == MetadataKey(b) ==> a == b
    ensures DataKey(a) != MetadataKey(a)
  {
    assert a == MetadataKey(a)[|METADATA|..] && b == MetadataKey(b)[|METADATA|..];
    assert |MetadataKey(a)| == |METADATA| + |a|;
  }

  /** All keys are distinct exactly when no name is "metadata::" followed by another. */
  lemma KeysDistinctIff(names: set<string>)
    ensures KeysDistinct(names) <==> NonColliding(names)
  {
    forall a, b | a in names && b in names
      ensures a != b ==> MetadataKey(a) != MetadataKey(b)
    {
      MetadataKeyInjective(a, b);
    }
  }

  /** In particular when no name begins with the prefix. */
  lemma PlainNamesDoNotCollide(names: set<string>)
    requires forall a :: a in names ==> !(METADATA <= a)
    ensures KeysDistinct(names)
  {
    KeysDistinctIff(names);
  }
}
