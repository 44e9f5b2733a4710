/**
 The freshness marker persisted on a Check Run, and the order it carries
 (packages/adapters-source/src/github-checks.ts).
 */
module FreshnessMarker {
  import opened Options
  import opened Text

  const MAX_SAFE_INTEGER := 9007199254740991
  const MARKER_MAX_LENGTH := 512
  const HASH_MAX_LENGTH := 256
  const PREFIX := "verifyagent"
  const VERSION := "v1"

  datatype Freshness = Freshness(createdAtMs: int, contentHash: string)

  predicate HashChar(c: char) {
    'A' <= c <= 'Z' || 'a' <= c <= 'z' || IsDigit(c) || c == '.' || c == '_' || c == '-'
  }

  predicate HashText(h: string) {
    1 <= |h| <= HASH_MAX_LENGTH && forall c :: c in h ==> HashChar(c)
  }

  predicate Representable(f: Freshness) {
    0 <= f.createdAtMs <= MAX_SAFE_INTEGER && HashText(f.contentHash)
  }

  /** `None` stands for the error thrown when the ordering cannot be represented. */
  function Format(f: Freshness): Option<string> {
    if Representable(f)
    then Some(PREFIX + ":" + VERSION + ":" + Show(f.createdAtMs) + ":" + f.contentHash)
    else None
  }

  function Parse(value: string): Option<Freshness> {
    if |value| == 0 || |value| > MARKER_MAX_LENGTH then None
    else
      var parts := Split(value, ':');
      if |parts| != 4 then None
      else if parts[0] != PREFIX || parts[1] != VERSION then None
      else if parts[2] == "" || !AllDigits(parts[2]) then None
      else if Value(parts[2]) > MAX_SAFE_INTEGER then None
      else if !HashText(parts[3]) then None
      else Some(Freshness(Value(parts[2]), parts[3]))
  }

  /** What a marker looks like when leading zeros are written before the time. */
  function Spelling(zeros: nat, f: Freshness): string
    requires Representable(f)
  {
    Join([PREFIX, VERSION, seq(zeros, _ => '0') + Show(f.createdAtMs), f.contentHash], ':')
  }

  lemma FormatIsPlainSpelling(f: Freshness)
    requires Representable(f)
    ensures Format(f) == Some(Spelling(0, f))
  {
    var digits := seq(0, _ => '0') + Show(f.createdAtMs);
    assert digits == Show(f.createdAtMs);
    JoinFour(PREFIX, VERSION, digits, f.contentHash);
  }

  lemma JoinFour(a: string, b: string, c: string, d: string)
    ensures Join([a, b, c, d], ':') == a + ":" + b + ":" + c + ":" + d
  {
    assert [a, b, c, d][1..] == [b, c, d] && [b, c, d][1..] == [c, d] && [c, d][1..] == [d];
    assert Join([c, d], ':') == c + ":" + d;
    assert Join([b, c, d], ':') == b + ":" + Join([c, d], ':');
    assert Join([a, b, c, d], ':') == a + ":" + Join([b, c, d], ':');
  }

  lemma SpellingParses(zeros: nat, f: Freshness)
    requires Representable(f) && |Spelling(zeros, f)| <= MARKER_MAX_LENGTH
    ensures Parse(Spelling(zeros, f)) == Some(f)
  {
    var digits := seq(zeros, _ => '0') + Show(f.createdAtMs);
    ValueSkipsZeros(zeros, Show(f.createdAtMs));
    ValueShow(f.createdAtMs);
    JoinFour(PREFIX, VERSION, digits, f.contentHash);
    SplitJoin([PREFIX, VERSION, digits, f.contentHash], ':');
  }

  /**
   A formatted marker is short enough, and parsing it gives back the same ordering; so two different
   orderings never share a marker.
   */
  lemma ParseFormat(f: Freshness)
    requires Representable(f)
    ensures Format(f).Some? && |Format(f).value| <= MARKER_MAX_LENGTH && Parse(Format(f).value) == Some(f)
  {
    FormatIsPlainSpelling(f);
    assert Power10(4) == 10000;
    assert Power10(8) == 100000000;
    assert Power10(12) == 1000000000000;
    assert Power10(16) == 10000000000000000;
    ShowLength(f.createdAtMs, 16, Power10(16));
    SpellingParses(0, f);
  }

  /**
   The parser accepts exactly the spellings of representable orderings, up to leading zeros and the
   length limit; in particular whatever it accepts can be formatted again.
   */
  lemma ParseAcceptsExactlySpellings(value: string, f: Freshness)
    ensures Parse(value) == Some(f) <==>
            Representable(f) && |value| <= MARKER_MAX_LENGTH && exists zeros: nat :: value == Spelling(zeros, f)
  {
    if Parse(value) == Some(f) {
      var parts := Split(value, ':');
      JoinSplit(value, ':');
      var zeros := DigitsAreZerosThenShow(parts[2]);
      assert parts == [PREFIX, VERSION, seq(zeros, _ => '0') + Show(f.createdAtMs), f.contentHash];
      assert value == Spelling(zeros, f);
    }
    if Representable(f) && |value| <= MARKER_MAX_LENGTH && exists zeros: nat :: value == Spelling(zeros, f) {
      var zeros: nat :| value == Spelling(zeros, f);
      SpellingParses(zeros, f);
    }
  }

  // ---------------------------------------------------------------- the order

  function Compare(incoming: Freshness, known: Freshness): int {
    if incoming.createdAtMs != known.createdAtMs then
      if incoming.createdAtMs < known.createdAtMs then -1 else 1
    else if incoming.contentHash == known.contentHash then 0
    else if Less(incoming.contentHash, known.contentHash) then -1 else 1
  }

  lemma CompareIsTotalOrder(a: Freshness, b: Freshness)
    ensures Compare(a, b) == 0 <==> a == b
    ensures Compare(a, b) == -Compare(b, a)
  {
    LessIsStrictTotal(a.contentHash, b.contentHash);
  }

  lemma CompareTransitive(a: Freshness, b: Freshness, c: Freshness)
    requires Compare(a, b) <= 0 && Compare(b, c) <= 0
    ensures Compare(a, c) <= 0
    ensures Compare(a, c) == 0 ==> a == b == c
  {
    if Less(a.contentHash, b.contentHash) && Less(b.contentHash, c.contentHash) {
      LessTransitive(a.contentHash, b.contentHash, c.contentHash);
    }
    LessIsStrictTotal(a.contentHash, b.contentHash);
    LessIsStrictTotal(a.contentHash, c.contentHash);
  }

  /** The later time is newer; at the same time, the content hash that comes later in code-unit order. */
  lemma CompareMeans(a: Freshness, b: Freshness)
    ensures Compare(a, b) < 0 <==>
      a.createdAtMs < b.createdAtMs || (a.createdAtMs == b.createdAtMs && Less(a.contentHash, b.contentHash))
    ensures Compare(a, b) > 0 <==>
      a.createdAtMs > b.createdAtMs || (a.createdAtMs == b.createdAtMs && Less(b.contentHash, a.contentHash))
  {
    LessIsStrictTotal(a.contentHash, b.contentHash);
  }
}
