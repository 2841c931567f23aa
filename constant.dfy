/** The rule's two fixed vocabularies: the factories that return reactive
    references, and the naming convention of composables. */
module Constants {

  /** `REACTIVE_FUNCTIONS` */
  const ReactiveFunctions: seq<string> := ["ref", "toRefs", "storeToRefs", "computed"]

  predicate IsAsciiUpper(c: char) {
    'A' <= c <= 'Z'
  }

  /** `COMPOSABLES_FUNCTION_PATTERN.test(name)`, the regular expression
      `/^use[A-Z]/`: the three characters `use` at the start, then one ASCII
      capital letter; whatever follows is not looked at. */
  predicate MatchesComposablePattern(name: string) {
    |name| >= 4 && name[..3] == "use" && IsAsciiUpper(name[3])
  }

  /** The pattern read as "some `use` + capital is a prefix of the name". */
  lemma ComposablePatternIsPrefixTest(name: string)
    ensures MatchesComposablePattern(name) <==> exists c :: IsAsciiUpper(c) && "use" + [c] <= name
  {
    if MatchesComposablePattern(name) {
      assert "use" + [name[3]] == name[..4];
    }
    if c :| IsAsciiUpper(c) && "use" + [c] <= name {
      assert name[..4] == "use" + [c];
      assert name[..3] == name[..4][..3];
    }
  }

  /** Anything after the fourth character is ignored. */
  lemma ComposablePatternIgnoresSuffix(name: string, rest: string)
    requires |name| >= 4
    ensures MatchesComposablePattern(name + rest) == MatchesComposablePattern(name)
  {
    assert (name + rest)[..3] == name[..3];
    assert (name + rest)[3] == name[3];
  }

  /** The match is anchored at the start: a name that does not begin with `u`
      never matches, whatever it contains later. */
  lemma ComposablePatternIsAnchored(c: char, rest: string)
    requires c != 'u'
    ensures !MatchesComposablePattern([c] + rest)
  {
    if |[c] + rest| >= 4 {
      assert ([c] + rest)[..3][0] == c;
    }
  }

  lemma ComposablePatternExamples()
    ensures MatchesComposablePattern("useSomething")
    ensures MatchesComposablePattern("useA")
    ensures !MatchesComposablePattern("doSomething")
    ensures !MatchesComposablePattern("use")
    ensures !MatchesComposablePattern("useful")
    ensures !MatchesComposablePattern("user")
  {
    assert "useSomething"[..3] == "use";
  }
}
