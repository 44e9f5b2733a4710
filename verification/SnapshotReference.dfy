/** `owner:repository:sha` snapshot identifiers (packages/adapters-source/src/github.ts). */
module SnapshotReference {
  import opened Options
  import opened Text

  datatype Reference = Reference(owner: string, repository: string, sha: string)

  predicate Alphanumeric(c: char) {
    'a' <= c <= 'z' || 'A' <= c <= 'Z' || IsDigit(c)
  }

  predicate ValidOwner(s: string) {
    1 <= |s| <= 39 && Alphanumeric(s[0]) && forall c :: c in s[1..] ==> Alphanumeric(c) || c == '-'
  }

  predicate ValidRepository(s: string) {
    1 <= |s| <= 100 && Alphanumeric(s[0])
    && forall c :: c in s[1..] ==> Alphanumeric(c) || c == '.' || c == '_' || c == '-'
  }

  predicate HexDigit(c: char) {
    IsDigit(c) || 'a' <= c <= 'f' || 'A' <= c <= 'F'
  }

  predicate ValidSha(s: string) {
    |s| == 40 && forall c :: c in s ==> HexDigit(c)
  }

  predicate Valid(r: Reference) {
    ValidOwner(r.owner) && ValidRepository(r.repository) && ValidSha(r.sha)
  }

  function Encode(r: Reference): Option<string> {
    if Valid(r) then Some(r.owner + ":" + r.repository + ":" + Lower(r.sha)) else None
  }

  function Decode(id: string): Option<Reference> {
    if Blank(id) then None
    else if '/' in id || '\\' in id || '@' in id then None
    else
      var parts := Split(id, ':');
      if |parts| != 3 then None
      else
        var r := Reference(parts[0], parts[1], Lower(parts[2]));
        if Valid(r) then Some(r) else None
  }

  lemma LowerSha(s: string)
    ensures ValidSha(Lower(s)) <==> ValidSha(s)
    ensures Lower(Lower(s)) == Lower(s)
  {
    var t := Lower(s);
    if ValidSha(s) {
      forall i | 0 <= i < |t| ensures HexDigit(t[i]) {
        assert HexDigit(s[i]);
      }
    }
    if ValidSha(t) {
      forall i | 0 <= i < |s| ensures HexDigit(s[i]) {
        assert HexDigit(t[i]);
      }
    }
  }

  lemma PlainParts(a: string, b: string, c: string)
    requires Plain(a) && Plain(b) && Plain(c)
    ensures var id := a + ":" + b + ":" + c; '/' !in id && '\\' !in id && '@' !in id
  {
  }

  /** Decoding an encoded reference gives the reference back with its sha in lower case. */
  lemma DecodeEncode(r: Reference)
    requires Valid(r)
    ensures Encode(r).Some? && Decode(Encode(r).value) == Some(r.(sha := Lower(r.sha)))
  {
    var id := Encode(r).value;
    var parts := [r.owner, r.repository, Lower(r.sha)];
    LowerSha(r.sha);
    PlainOwner(r.owner);
    PlainRepository(r.repository);
    PlainSha(Lower(r.sha));
    PlainParts(r.owner, r.repository, Lower(r.sha));
    JoinThree(r.owner, r.repository, Lower(r.sha));
    SplitJoin(parts, ':');
    assert id[0] == r.owner[0] && !Blank(id);
    assert Split(id, ':') == parts;
  }

  /** Whatever decodes is, up to the case of its sha, the encoding of what it decodes to. */
  lemma EncodeDecode(id: string, r: Reference)
    requires Decode(id) == Some(r)
    ensures Valid(r) && Encode(r).Some?
    ensures |Encode(r).value| == |id| && Lower(Encode(r).value) == Lower(id)
    ensures var n := |r.owner| + |r.repository| + 2; id[..n] == Encode(r).value[..n]
  {
    var parts := Split(id, ':');
    JoinSplit(id, ':');
    JoinThree(parts[0], parts[1], parts[2]);
    LowerSha(parts[2]);
    assert parts == [parts[0], parts[1], parts[2]];
    assert id == r.owner + ":" + r.repository + ":" + parts[2];
    assert Encode(r).value == r.owner + ":" + r.repository + ":" + Lower(parts[2]);
  }

  lemma JoinThree(a: string, b: string, c: string)
    ensures Join([a, b, c], ':') == a + ":" + b + ":" + c
  {
    assert [a, b, c][1..] == [b, c] && [b, c][1..] == [c];
    assert Join([b, c], ':') == b + ":" + c;
    assert Join([a, b, c], ':') == a + ":" + Join([b, c], ':');
  }

  predicate Plain(s: string) {
    ':' !in s && '/' !in s && '\\' !in s && '@' !in s
  }

  lemma PlainOwner(s: string)
    requires ValidOwner(s)
    ensures Plain(s)
  {
    assert s == [s[0]] + s[1..];
  }

  lemma PlainRepository(s: string)
    requires ValidRepository(s)
    ensures Plain(s)
  {
    assert s == [s[0]] + s[1..];
  }

  lemma PlainSha(s: string)
    requires ValidSha(s)
    ensures Plain(s)
  {
  }

  /** An encoded reference reads as owner, repository and sha in lower case, between colons. */
  lemma EncodedReads(r: Reference)
    requires Encode(r).Some?
    ensures Split(Encode(r).value, ':') == [r.owner, r.repository, Lower(r.sha)]
  {
    var id := Encode(r).value;
    NoColons(r);
    assert id == r.owner + [':'] + (r.repository + [':'] + Lower(r.sha));
    SplitFirst(r.owner, ':', r.repository + [':'] + Lower(r.sha));
    SplitFirst(r.repository, ':', Lower(r.sha));
    SplitPlain(Lower(r.sha), ':');
  }

  lemma NoColons(r: Reference)
    requires Valid(r)
    ensures ':' !in r.owner && ':' !in r.repository && ':' !in Lower(r.sha)
  {
    assert r.owner == [r.owner[0]] + r.owner[1..] && r.repository == [r.repository[0]] + r.repository[1..];
    LowerSha(r.sha);
  }
}
