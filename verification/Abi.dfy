// Calls as the ABI encodes them, and what the dispatcher makes of them.

module Abi {
  import opened Words
  import opened Machine
  import opened Runtime

  // The first n words, 32 bytes each.
  function EncodeWords(words: seq<Word>, n: nat): (s: seq<byte>)
    requires n <= |words|
    ensures |s| == 32 * n
  {
    if n == 0 then [] else EncodeWords(words, n - 1) + ToBytes(words[n - 1], 32)
  }

  // Four bytes of selector, then the arguments.
  function EncodeCall(selector: uint32, words: seq<Word>): (s: seq<byte>)
    ensures |s| == 4 + 32 * |words|
  {
    ToBytes(selector, 4) + EncodeWords(words, |words|)
  }

  lemma SelectorDecodes(selector: uint32, words: seq<Word>)
    ensures Selector(EncodeCall(selector, words)) == selector
  {
    assert Window(EncodeCall(selector, words), 0, 4) == ToBytes(selector, 4);
    PowFour();
    FromToBytes(selector, 4);
  }

  lemma {:induction false} WordStands(words: seq<Word>, n: nat, i: nat)
    requires i < n <= |words|
    ensures EncodeWords(words, n)[32 * i..32 * i + 32] == ToBytes(words[i], 32)
  {
    var before := EncodeWords(words, n - 1);
    if i < n - 1 {
      WordStands(words, n - 1, i);
      assert EncodeWords(words, n)[32 * i..32 * i + 32] == before[32 * i..32 * i + 32];
    }
  }

  // Argument i comes back from where the dispatcher reads it.
  lemma ArgumentDecodes(selector: uint32, words: seq<Word>, i: nat)
    requires i < |words|
    ensures WordOf(Window(EncodeCall(selector, words), 4 + 32 * i, 32)) == words[i]
  {
    var calldata, encoded := EncodeCall(selector, words), EncodeWords(words, |words|);
    WordStands(words, |words|, i);
    assert Window(calldata, 4 + 32 * i, 32) == encoded[32 * i..32 * i + 32];
    WordBytes(words[i]);
  }
}
