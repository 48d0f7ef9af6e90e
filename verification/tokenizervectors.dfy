/**
 * Small inputs for the key=value tokenizer: an empty event, a repeated key
 * and a quote that is never closed.
 */
module TokenizerVectors {
  import opened Chars
  import opened KvPairs

  lemma NoEqualsNoKey(s: string)
    requires '=' !in s
    ensures !HasKeyOccurrence(s)
  {
  }

  /** An empty event has no pairs. */
  lemma EmptyEvent()
    ensures KvPairs.Parse("") == map[]
  {
    ParseEmptyIff("");
  }

  // ---- `k=1,k=2`: the last value of a repeated key wins

  lemma RepeatedFields()
    ensures Render([Field("k", "1", false), Field("k", "2", false)], ",") == "k=1,k=2"
    ensures WellFormedField(Field("k", "1", false)) && WellFormedField(Field("k", "2", false))
    ensures PairsOf([Field("k", "1", false), Field("k", "2", false)]) == [Pair("k", "1"), Pair("k", "2")]
    ensures IsSeparator(",")
  {
    var fs := [Field("k", "1", false), Field("k", "2", false)];
    assert fs[1..] == [Field("k", "2", false)];
  }

  lemma RepeatedKeyPairs()
    ensures KvPairs.Parse("k=1,k=2") == ToMap([Pair("k", "1"), Pair("k", "2")])
  {
    RepeatedFields();
    assert [] + "k=1,k=2" == "k=1,k=2";
    ParseRendered([], [Field("k", "1", false), Field("k", "2", false)], ",", "k=1,k=2");
  }

  /** `k=1,k=2` gives `{k: "2"}`. */
  lemma RepeatedKey()
    ensures KvPairs.Parse("k=1,k=2") == map["k" := "2"]
  {
    RepeatedKeyPairs();
    ToMapPair(Pair("k", "1"), Pair("k", "2"));
  }

  // ---- `k="a b`: no closing quote, so the value is read unquoted

  lemma UnclosedPieces()
    ensures "k=\"a b" == "k" + "=" + ("\"a" + " b")
    ensures AllIn("k", KeyChar) && AllIn("\"a", BareValue)
    ensures '"' !in "a" + " b"
    ensures "\"a"[1..] == "a" && AfterTerminator(" b") == "b"
    ensures '=' !in "b"
  {
  }

  /** `k="a b` gives `{k: "\"a"}`: the opening quote stays in the value. */
  lemma QuoteFallback()
    ensures KvPairs.Parse("k=\"a b") == map["k" := "\"a"]
  {
    UnclosedPieces();
    MatchesHit("k", "\"a" + " b");
    ReadUnclosed("\"a", " b");
    NoEqualsNoKey("b");
    NoMatchesIff("b");
    assert [Pair("k", "\"a")][..0] == [];
  }
}
