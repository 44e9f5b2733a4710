/**
 The identity under which a composition is published: `composedSnapshotIdentity`
 (packages/engine/src/snapshot-composition.ts).
 */
module SnapshotIdentity {
  import opened Options

  predicate Alphanumeric(c: char) {
    'A' <= c <= 'Z' || 'a' <= c <= 'z' || '0' <= c <= '9'
  }

  predicate Hexadecimal(c: char) {
    'a' <= c <= 'f' || '0' <= c <= '9'
  }

  /** SNAPSHOT_ID_RE, the sandbox's acceptance set. */
  predicate SandboxSafe(s: string) {
    && 1 <= |s| <= 256
    && Alphanumeric(s[0])
    && forall i :: 0 <= i < |s| ==> Alphanumeric(s[i]) || s[i] in {'.', '_', '-'}
  }

  predicate ContentHash(s: string) {
    |s| == 64 && forall i :: 0 <= i < |s| ==> Hexadecimal(s[i])
  }

  predicate CommitSha(s: string) {
    |s| == 40 && forall i :: 0 <= i < |s| ==> Hexadecimal(s[i])
  }

  datatype Error = UnsafeSource | MissingHash | TooLong

  function ComposedSnapshotIdentity(source: string, contentHash: string): Result<string, Error> {
    if !SandboxSafe(source) || source == "." || source == ".." || '/' in source || '\\' in source then Err(UnsafeSource)
    else if !ContentHash(contentHash) then Err(MissingHash)
    else
      var identity := source + "-dep-" + contentHash[..32];
      if |identity| > 256 then Err(TooLong) else Ok(identity)
  }

  /** Which inputs are accepted: the tests for dots and slashes never fire on a sandbox-safe source. */
  lemma AcceptedIff(source: string, contentHash: string)
    ensures ComposedSnapshotIdentity(source, contentHash).Ok? <==>
      SandboxSafe(source) && |source| <= 219 && ContentHash(contentHash)
  {
  }

  /** The identity is bound to the exact source and to the first 32 digits of the hash, and to nothing else. */
  lemma IdentityBindsBoth(source: string, contentHash: string, source': string, contentHash': string)
    requires ComposedSnapshotIdentity(source, contentHash).Ok? && ComposedSnapshotIdentity(source', contentHash').Ok?
    ensures ComposedSnapshotIdentity(source, contentHash) == ComposedSnapshotIdentity(source', contentHash')
      <==> source == source' && contentHash[..32] == contentHash'[..32]
  {
    var x, x' := ComposedSnapshotIdentity(source, contentHash).value, ComposedSnapshotIdentity(source', contentHash').value;
    assert x == source + "-dep-" + contentHash[..32] && x' == source' + "-dep-" + contentHash'[..32];
    assert |x| == |source| + 37 && |x'| == |source'| + 37;
    assert x[..|source|] == source && x'[..|source'|] == source';
    assert x[|source| + 5..] == contentHash[..32] && x'[|source'| + 5..] == contentHash'[..32];
  }

  /**
   The identity is sandbox-safe again, so it can itself be composed upon; it is never a commit SHA, so
   a composition never takes a source snapshot's directory; and it is neither the lock directory nor a
   staging directory.
   */
  lemma IdentityIsApart(source: string, contentHash: string)
    requires ComposedSnapshotIdentity(source, contentHash).Ok?
    ensures var identity := ComposedSnapshotIdentity(source, contentHash).value;
      SandboxSafe(identity) && !CommitSha(identity) && identity != source && identity[0] != '.'
  {
    var identity := ComposedSnapshotIdentity(source, contentHash).value;
    assert identity[|source|] == '-' && !Hexadecimal('-');
    forall i | 0 <= i < |identity| ensures Alphanumeric(identity[i]) || identity[i] in {'.', '_', '-'} {
      if |source| <= i < |source| + 5 {
        assert identity[i] == "-dep-"[i - |source|];
      } else if i >= |source| + 5 {
        assert identity[i] == contentHash[i - |source| - 5];
      }
    }
  }

  /** How an identity reads: the source, a fixed infix, and the first 32 digits of the hash. */
  lemma IdentityReads(source: string, contentHash: string)
    requires ComposedSnapshotIdentity(source, contentHash).Ok?
    ensures var identity := ComposedSnapshotIdentity(source, contentHash).value;
      && |identity| == |source| + 37
      && identity[..|source|] == source
      && identity[|source|..|source| + 5] == "-dep-"
      && identity[|source| + 5..] == contentHash[..32]
  {
  }
}
