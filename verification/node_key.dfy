/**
 The key a node is stored under in the backend document's node map
 (src/App.js:102-104): every `-` is removed, the character at offset 0 is
 lower-cased when it is an upper-case ASCII letter, and `Node` is appended.
 No other character changes: the result is not camel-cased.
 */
module NodeKey {
  import Seqs

  predicate IsUpper(c: char) {
    'A' <= c <= 'Z'
  }

  function ToLower(c: char): char
    requires IsUpper(c)
  {
    (c as int + 32) as char
  }

  /** The characters of `id` from index `i` on, without the hyphens (the scan `replace(/-/g, '')` performs). */
  function StripFrom(id: string, i: nat): string
    requires i <= |id|
    decreases |id| - i
  {
    if i == |id| then ""
    else (if id[i] == '-' then "" else [id[i]]) + StripFrom(id, i + 1)
  }

  /** `id.replace(/-/g, '')`. */
  function StripHyphens(id: string): string {
    StripFrom(id, 0)
  }

  /** Removing hyphens is filtering out the `-` characters: order and every other character are kept. */
  lemma {:induction false} StripFromIsFilter(id: string, i: nat)
    requires i <= |id|
    ensures StripFrom(id, i) == Seqs.Filter(id[i..], (c: char) => c != '-')
    decreases |id| - i
  {
    if i < |id| {
      StripFromIsFilter(id, i + 1);
      assert id[i..][1..] == id[i + 1..];
    }
  }

  /** The `/([A-Z])/g` replacement that lower-cases only a match at offset 0. */
  function LowerFirst(s: string): string {
    if |s| > 0 && IsUpper(s[0]) then [ToLower(s[0])] + s[1..] else s
  }

  const Suffix: string := "Node"

  /** The node-map key for a node id. */
  function DeriveKey(id: string): string {
    LowerFirst(StripHyphens(id)) + Suffix
  }

  /** Hyphen removal drops exactly the `-` characters and keeps the others in order, with their multiplicity. */
  lemma StripHyphensFacts(id: string)
    ensures forall i :: 0 <= i < |StripHyphens(id)| ==> StripHyphens(id)[i] != '-'
    ensures forall c :: c != '-' ==> multiset(StripHyphens(id))[c] == multiset(id)[c]
    ensures Seqs.IsSubsequence(StripHyphens(id), id)
    ensures (forall i :: 0 <= i < |id| ==> id[i] != '-') ==> StripHyphens(id) == id
  {
    var body := StripHyphens(id);
    StripFromIsFilter(id, 0);
    assert id[0..] == id;
    forall i | 0 <= i < |body| ensures body[i] != '-' {
      assert body[i] in body;
    }
    if forall i :: 0 <= i < |id| ==> id[i] != '-' {
      Seqs.FilterIdentity(id, (c: char) => c != '-');
    }
  }

  /**
   The shape of a derived key: it ends in `Node`, holds no `-`, does not start
   with an upper-case letter, and before the suffix it is the id with its
   hyphens removed, character for character, except that an upper-case first
   character is lower-cased.
   */
  lemma DeriveKeyShape(id: string)
    ensures |DeriveKey(id)| == |StripHyphens(id)| + 4
    ensures DeriveKey(id)[|DeriveKey(id)| - 4..] == "Node"
    ensures forall i :: 0 <= i < |DeriveKey(id)| ==> DeriveKey(id)[i] != '-'
    ensures |StripHyphens(id)| > 0 ==> !IsUpper(DeriveKey(id)[0])
    ensures forall i :: 0 < i < |StripHyphens(id)| ==> DeriveKey(id)[i] == StripHyphens(id)[i]
    ensures |StripHyphens(id)| > 0 && !IsUpper(StripHyphens(id)[0]) ==> DeriveKey(id)[0] == StripHyphens(id)[0]
    ensures |StripHyphens(id)| > 0 && IsUpper(StripHyphens(id)[0]) ==> DeriveKey(id)[0] == ToLower(StripHyphens(id)[0])
  {
    var body := StripHyphens(id);
    var k := DeriveKey(id);
    StripHyphensFacts(id);
    assert k == LowerFirst(body) + "Node";
    assert |LowerFirst(body)| == |body|;
  }

  /**
   For an id without upper-case letters, the only upper-case letter of the key
   is the `N` of the suffix: nothing is camel-cased.
   */
  lemma DeriveKeyLowerBody(id: string)
    requires forall i :: 0 <= i < |id| ==> !IsUpper(id[i])
    ensures forall i :: 0 <= i < |DeriveKey(id)| - 4 ==> !IsUpper(DeriveKey(id)[i])
  {
    var body := StripHyphens(id);
    StripHyphensFacts(id);
    DeriveKeyShape(id);
    forall i | 0 <= i < |body| ensures !IsUpper(body[i]) {
      assert body[i] in multiset(body);
      assert body[i] in multiset(id);
      var j :| 0 <= j < |id| && id[j] == body[i];
    }
  }

  /** So a document key with an upper-case letter before its last four characters is never reproduced. */
  lemma DeriveKeyMissesCamelCase(id: string, key: string, j: nat)
    requires forall i :: 0 <= i < |id| ==> !IsUpper(id[i])
    requires j + 4 < |key| && IsUpper(key[j])
    ensures DeriveKey(id) != key
  {
    DeriveKeyLowerBody(id);
  }

  /** An id that starts with a lower-case, non-hyphen character gives a key starting with that character. */
  lemma DeriveKeyFirst(id: string)
    requires |id| > 0 && id[0] != '-' && !IsUpper(id[0])
    ensures DeriveKey(id)[0] == id[0]
  {
    assert StripHyphens(id) == [id[0]] + StripFrom(id, 1);
    DeriveKeyShape(id);
  }

  /** Two ids share a key exactly when they agree once hyphens are dropped and a leading capital is lowered. */
  lemma DeriveKeyCollision(a: string, b: string)
    ensures DeriveKey(a) == DeriveKey(b) <==> LowerFirst(StripHyphens(a)) == LowerFirst(StripHyphens(b))
  {
    var x := LowerFirst(StripHyphens(a));
    var y := LowerFirst(StripHyphens(b));
    if DeriveKey(a) == DeriveKey(b) {
      assert x == DeriveKey(a)[..|x|];
      assert y == DeriveKey(b)[..|y|];
    }
  }

  /** The key derivation is not injective: hyphens and a leading capital are forgotten. */
  lemma DeriveKeyNotInjective()
    ensures DeriveKey("a-b") == DeriveKey("ab")
    ensures DeriveKey("Ab") == DeriveKey("ab")
    ensures DeriveKey("ab") == "abNode"
  {
  }

  const ExampleId: string := "email-node"

  lemma StripExample()
    ensures StripFrom(ExampleId, 0) == "emailnode"
  {
    assert StripFrom(ExampleId, 8) == "de";
    assert StripFrom(ExampleId, 5) == "node";
    assert StripFrom(ExampleId, 2) == "ailnode";
  }

  /** A worked example: the hyphens go, nothing is capitalised, `Node` is appended. */
  lemma DeriveKeyExample()
    ensures DeriveKey(ExampleId) == "emailnodeNode"
  {
    StripExample();
    assert StripHyphens(ExampleId) == "emailnode";
  }
}
