/** State-name normalisation (utils/map-helpers.ts): the canonical form under
    which a typed guess and a region name from the boundary dataset are
    compared. Characters are treated as ASCII: only 'A'..'Z' change case, and
    white space is the six ASCII white-space characters, which is the set
    JavaScript's `trim` and the regular-expression class `\s` share there. */
module MapHelpers {

  // ---------------------------------------------------------------------
  // Characters
  // ---------------------------------------------------------------------

  predicate IsSpace(c: char) {
    c == ' ' || '\t' <= c <= '\r'  // space, or one of \t \n \v \f \r
  }

  predicate IsUpper(c: char) {
    'A' <= c <= 'Z'
  }

  /** The characters the fallback keeps: `[a-z0-9\s]`. */
  predicate IsKept(c: char) {
    'a' <= c <= 'z' || '0' <= c <= '9' || IsSpace(c)
  }

  predicate AllSpace(s: string) {
    forall i :: 0 <= i < |s| ==> IsSpace(s[i])
  }

  predicate AllKept(s: string) {
    forall i :: 0 <= i < |s| ==> IsKept(s[i])
  }

  predicate NoneKept(s: string) {
    forall i :: 0 <= i < |s| ==> !IsKept(s[i])
  }

  /** The lower-case letters in alphabetical order. */
  const LowerLetters: string := "abcdefghijklmnopqrstuvwxyz"

  /** `toLowerCase` on one character: the n-th capital becomes the n-th
      lower-case letter, and every other character stays. */
  function LowerChar(c: char): (r: char)
    ensures !IsUpper(r)
    ensures IsUpper(c) ==> r == LowerLetters[c as int - 'A' as int]
    ensures !IsUpper(c) ==> r == c
    ensures IsSpace(r) <==> IsSpace(c)
  {
    if IsUpper(c) then (c as int + 32) as char else c
  }

  // ---------------------------------------------------------------------
  // String primitives: toLowerCase, trim, and the two regex replaces
  // ---------------------------------------------------------------------

  /** `toLowerCase` on ASCII (properties: ToLowerSpec). The properties of
      this and the other string primitives are stated by lemmas rather than
      postconditions, which keeps their evaluation on string literals cheap. */
  function ToLower(s: string): string {
    seq(|s|, i requires 0 <= i < |s| => LowerChar(s[i]))
  }

  predicate NoUpper(s: string) {
    forall i :: 0 <= i < |s| ==> !IsUpper(s[i])
  }

  /** Lower-casing keeps the length, turns each capital into its lower-case
      letter and keeps every other character in place; so it leaves no
      upper-case letter, and leaves a string without one unchanged. */
  lemma ToLowerSpec(s: string)
    ensures |ToLower(s)| == |s| && NoUpper(ToLower(s))
    ensures forall i :: 0 <= i < |s| && IsUpper(s[i]) ==> ToLower(s)[i] == LowerLetters[s[i] as int - 'A' as int]
    ensures forall i :: 0 <= i < |s| && !IsUpper(s[i]) ==> ToLower(s)[i] == s[i]
    ensures NoUpper(s) ==> ToLower(s) == s
  {
  }

  /** Drops the leading white space. Its properties are stated by
      TrimStartSpec; keeping them out of the definition keeps the unfolding of
      this function on string literals cheap. */
  function TrimStart(s: string): string {
    if s != [] && IsSpace(s[0]) then TrimStart(s[1..]) else s
  }

  /** Drops the trailing white space (properties: TrimEndSpec). */
  function TrimEnd(s: string): string {
    if s != [] && IsSpace(s[|s| - 1]) then TrimEnd(s[..|s| - 1]) else s
  }

  /** TrimStart yields a suffix of `s`, cuts off only white space, and leaves
      no white space at the front. */
  lemma {:induction false} TrimStartSpec(s: string)
    ensures |TrimStart(s)| <= |s| && TrimStart(s) == s[|s| - |TrimStart(s)|..]
    ensures forall i :: 0 <= i < |s| - |TrimStart(s)| ==> IsSpace(s[i])
    ensures TrimStart(s) != [] ==> !IsSpace(TrimStart(s)[0])
  {
    if s != [] && IsSpace(s[0]) {
      TrimStartSpec(s[1..]);
      var t := TrimStart(s[1..]);
      assert TrimStart(s) == t;
      assert s[1..][|s| - 1 - |t|..] == s[|s| - |t|..];
      forall i | 0 < i < |s| - |t| ensures IsSpace(s[i]) {
        assert s[i] == s[1..][i - 1];
      }
    } else {
      assert TrimStart(s) == s;
    }
  }

  /** TrimEnd yields a prefix of `s`, cuts off only white space, and leaves
      no white space at the back. */
  lemma {:induction false} TrimEndSpec(s: string)
    ensures |TrimEnd(s)| <= |s| && TrimEnd(s) == s[..|TrimEnd(s)|]
    ensures forall i :: |TrimEnd(s)| <= i < |s| ==> IsSpace(s[i])
    ensures TrimEnd(s) != [] ==> !IsSpace(TrimEnd(s)[|TrimEnd(s)| - 1])
  {
    if s != [] && IsSpace(s[|s| - 1]) {
      TrimEndSpec(s[..|s| - 1]);
      var t := TrimEnd(s[..|s| - 1]);
      assert TrimEnd(s) == t;
      assert s[..|s| - 1][..|t|] == s[..|t|];
      forall i | |t| <= i < |s| - 1 ensures IsSpace(s[i]) {
        assert s[i] == s[..|s| - 1][i];
      }
    } else {
      assert TrimEnd(s) == s;
    }
  }

  predicate IsTrimmed(s: string) {
    s == [] || (!IsSpace(s[0]) && !IsSpace(s[|s| - 1]))
  }

  /** `trim` (properties: TrimSpec). */
  function Trim(s: string): string {
    TrimEnd(TrimStart(s))
  }

  /** The trimmed string has no white space at either end, a string already
      trimmed is left as it is, and no upper-case letter is introduced. */
  lemma TrimSpec(s: string)
    ensures IsTrimmed(Trim(s)) && |Trim(s)| <= |s|
    ensures IsTrimmed(s) ==> Trim(s) == s
    ensures NoUpper(s) ==> NoUpper(Trim(s))
  {
    var t := TrimStart(s);
    TrimStartSpec(s);
    var r := TrimEnd(t);
    TrimEndSpec(t);
    assert Trim(s) == r;
    if r != [] {
      assert r[0] == t[0];
    }
    if IsTrimmed(s) && s != [] {
      assert t == s;
      assert r == s;
    }
    if NoUpper(s) {
      forall i | 0 <= i < |r| ensures !IsUpper(r[i]) {
        assert r[i] == t[i] == s[|s| - |t| + i];
      }
    }
  }

  /** `replace(/&/g, "and")` (properties: ReplaceAmpersandsSpec). */
  function ReplaceAmpersands(s: string): string {
    if s == [] then []
    else (if s[0] == '&' then "and" else [s[0]]) + ReplaceAmpersands(s[1..])
  }

  /** After the replacement no '&' is left, and a string without '&' is
      unchanged. */
  lemma {:induction false} ReplaceAmpersandsSpec(s: string)
    ensures '&' !in ReplaceAmpersands(s)
    ensures '&' !in s ==> ReplaceAmpersands(s) == s
  {
    if s != [] {
      ReplaceAmpersandsSpec(s[1..]);
    }
  }

  /** A single '&' becomes "and"; any other character is kept. */
  lemma ReplaceAmpersandsChar(c: char)
    ensures ReplaceAmpersands([c]) == if c == '&' then "and" else [c]
  {
    assert [c][1..] == [];
  }

  /** The replacement works character by character: it distributes over
      concatenation, so every other character stays in place and in order. */
  lemma {:induction false} ReplaceAmpersandsAppend(a: string, b: string)
    ensures ReplaceAmpersands(a + b) == ReplaceAmpersands(a) + ReplaceAmpersands(b)
  {
    if a == [] {
      assert a + b == b;
    } else {
      assert (a + b)[0] == a[0];
      assert (a + b)[1..] == a[1..] + b;
      ReplaceAmpersandsAppend(a[1..], b);
    }
  }

  /** `replace(/[^a-z0-9\s]/g, "")` (properties: StripDisallowedSpec). */
  function StripDisallowed(s: string): string {
    if s == [] then []
    else (if IsKept(s[0]) then [s[0]] else []) + StripDisallowed(s[1..])
  }

  /** Only kept characters survive, and a string made only of them is
      unchanged. */
  lemma {:induction false} StripDisallowedSpec(s: string)
    ensures AllKept(StripDisallowed(s))
    ensures AllKept(s) ==> StripDisallowed(s) == s
  {
    if s != [] {
      StripDisallowedSpec(s[1..]);
    }
  }

  /** A single character survives exactly when it is kept. */
  lemma StripDisallowedChar(c: char)
    ensures StripDisallowed([c]) == if IsKept(c) then [c] else []
  {
    assert [c][1..] == [];
  }

  /** The removal works character by character: it distributes over
      concatenation, so the kept characters survive in order. */
  lemma {:induction false} StripDisallowedAppend(a: string, b: string)
    ensures StripDisallowed(a + b) == StripDisallowed(a) + StripDisallowed(b)
  {
    if a == [] {
      assert a + b == b;
    } else {
      assert (a + b)[0] == a[0];
      assert (a + b)[1..] == a[1..] + b;
      StripDisallowedAppend(a[1..], b);
    }
  }

  // ---------------------------------------------------------------------
  // normalizeStateName and isStateMatch
  // ---------------------------------------------------------------------

  /** The fixed alias table: historical or alternate names (lower-case,
      trimmed) and the standard name each stands for. */
  const Aliases: map<string, string> := map[
    "orissa" := "odisha",
    "uttaranchal" := "uttarakhand",
    "jammu & kashmir" := "jammu and kashmir",
    "andaman & nicobar islands" := "andaman and nicobar islands",
    "dadra & nagar haveli" := "dadra and nagar haveli and daman and diu",
    "daman & diu" := "dadra and nagar haveli and daman and diu"
  ]

  /** The string the alias table is consulted with: lower-cased, then trimmed. */
  function LookupKey(name: string): string {
    Trim(ToLower(name))
  }

  /** A lookup key is trimmed and has no upper-case letter; a string that is
      both is its own key. */
  lemma LookupKeySpec(name: string)
    ensures IsTrimmed(LookupKey(name)) && NoUpper(LookupKey(name))
    ensures IsTrimmed(name) && NoUpper(name) ==> LookupKey(name) == name
  {
    ToLowerSpec(name);
    TrimSpec(ToLower(name));
  }

  /** The generic normalisation applied when the alias table has no entry
      (properties: FallbackSpec). */
  function Fallback(lower: string): string {
    StripDisallowed(ReplaceAmpersands(lower))
  }

  /** The fallback yields only kept characters and leaves a string made of
      them unchanged. */
  lemma FallbackSpec(lower: string)
    ensures AllKept(Fallback(lower))
    ensures AllKept(lower) ==> Fallback(lower) == lower
  {
    ReplaceAmpersandsSpec(lower);
    StripDisallowedSpec(ReplaceAmpersands(lower));
  }

  /** `normalizeStateName`, with the alias table consulted on its own keys
      only. Whatever the input, the result is built from `[a-z0-9\s]`. */
  function NormalizeStateName(name: string): string {
    if name == "" then ""
    else
      var lower := LookupKey(name);
      if lower in Aliases then Aliases[lower] else Fallback(lower)
  }

  /** `isStateMatch`: both names have the same normal form. */
  predicate IsStateMatch(mapName: string, targetName: string) {
    NormalizeStateName(mapName) == NormalizeStateName(targetName)
  }

  // ---------------------------------------------------------------------
  // Properties
  // ---------------------------------------------------------------------

  /** A string in normal form: lower-case, trimmed, made only of kept
      characters, and not itself a name the alias table replaces. */
  predicate IsCanonical(s: string) {
    && IsTrimmed(s)
    && AllKept(s)
    && s !in Aliases
  }

  /** Whatever the input, the normal form is built from `[a-z0-9\s]` only. */
  lemma NormalFormIsKept(name: string)
    ensures AllKept(NormalizeStateName(name))
  {
    if name != "" {
      var lower := LookupKey(name);
      if lower in Aliases {
        AliasValuesAreCanonical();
      } else {
        FallbackSpec(lower);
      }
    }
  }

  lemma EmptyNormalizesToEmpty()
    ensures NormalizeStateName("") == ""
  {
  }

  /** Canonical strings are fixed points of the normaliser. */
  lemma CanonicalIsFixedPoint(s: string)
    requires IsCanonical(s)
    ensures NormalizeStateName(s) == s
  {
    if s != "" {
      assert NoUpper(s) by {
        forall i | 0 <= i < |s| ensures !IsUpper(s[i]) {
          assert IsKept(s[i]);
        }
      }
      LookupKeySpec(s);
      FallbackSpec(s);
    }
  }

  /** Every standard name the alias table yields is itself canonical, so it
      normalises to itself. */
  lemma AliasValuesAreCanonical()
    ensures forall k :: k in Aliases ==> IsCanonical(Aliases[k])
  {
    ShortStandardNamesCanonical();
    LongStandardNamesCanonical();
  }

  lemma ShortStandardNamesCanonical()
    ensures IsCanonical("odisha")
    ensures IsCanonical("uttarakhand")
    ensures IsCanonical("jammu and kashmir")
  {
    assert AllKept("odisha");
    assert AllKept("uttarakhand");
    assert AllKept("jammu and kashmir");
  }

  lemma LongStandardNamesCanonical()
    ensures IsCanonical("andaman and nicobar islands")
    ensures IsCanonical("dadra and nagar haveli and daman and diu")
  {
    AndamanNameCanonical();
    MergedNameCanonical();
  }

  lemma AndamanNameCanonical()
    ensures IsCanonical("andaman and nicobar islands")
  {
    assert AllKept("andaman and nicobar islands");
  }

  lemma MergedNameCanonical()
    ensures IsCanonical("dadra and nagar haveli and daman and diu")
  {
    assert AllKept("dadra and nagar haveli and daman and diu");
  }

  /** The alias keys are already lower-case and trimmed, so each is looked up
      as it stands. */
  lemma AliasKeysAreLookupKeys(k: string)
    requires k in Aliases
    ensures LookupKey(k) == k
  {
    assert IsTrimmed(k) && NoUpper(k);
    LookupKeySpec(k);
  }

  /** The alias table maps each listed variant to its standard name, e.g.
      "orissa" to "odisha" and both "dadra & nagar haveli" and "daman & diu"
      to "dadra and nagar haveli and daman and diu". */
  lemma AliasKeysNormalizeToValues(k: string)
    requires k in Aliases
    ensures NormalizeStateName(k) == Aliases[k]
  {
    AliasKeysAreLookupKeys(k);
  }

  lemma {:induction false} TrimStartSpacePrefix(w: string, x: string)
    requires AllSpace(w)
    ensures TrimStart(w + x) == TrimStart(x)
  {
    if w == [] {
      assert w + x == x;
    } else {
      assert (w + x)[0] == w[0];
      assert (w + x)[1..] == w[1..] + x;
      TrimStartSpacePrefix(w[1..], x);
    }
  }

  lemma {:induction false} TrimEndSpaceSuffix(x: string, w: string)
    requires AllSpace(w)
    ensures TrimEnd(x + w) == TrimEnd(x)
  {
    if w == [] {
      assert x + w == x;
    } else {
      assert (x + w)[|x + w| - 1] == w[|w| - 1];
      assert (x + w)[..|x + w| - 1] == x + w[..|w| - 1];
      TrimEndSpaceSuffix(x, w[..|w| - 1]);
    }
  }

  lemma {:induction false} TrimStartAppend(t: string, u: string)
    requires TrimStart(t) != []
    ensures TrimStart(t + u) == TrimStart(t) + u
  {
    if IsSpace(t[0]) {
      assert (t + u)[1..] == t[1..] + u;
      TrimStartAppend(t[1..], u);
    }
  }

  /** White space around a string does not change its trimmed form. */
  lemma TrimIgnoresSurroundingSpace(w1: string, t: string, w2: string)
    requires AllSpace(w1)
    requires AllSpace(w2)
    ensures Trim(w1 + t + w2) == Trim(t)
  {
    assert w1 + t + w2 == w1 + (t + w2);
    TrimStartSpacePrefix(w1, t + w2);
    TrimStartSpec(t);
    if TrimStart(t) == [] {
      TrimStartSpacePrefix(t, w2);
      TrimStartSpacePrefix(w2, []);
      assert w2 + [] == w2;
    } else {
      TrimStartAppend(t, w2);
      TrimEndSpaceSuffix(TrimStart(t), w2);
    }
  }

  lemma ToLowerAppend(a: string, b: string)
    ensures ToLower(a + b) == ToLower(a) + ToLower(b)
  {
  }

  /** Letter case and surrounding white space never affect the normal form:
      the result depends only on the lower-cased, trimmed input. */
  lemma NormalizeDependsOnlyOnKey(name: string)
    ensures NormalizeStateName(name) == NormalizeStateName(LookupKey(name))
  {
    LookupKeySpec(name);
    LookupKeySpec(LookupKey(name));
  }

  lemma SurroundingSpaceIgnored(w1: string, name: string, w2: string)
    requires AllSpace(w1)
    requires AllSpace(w2)
    ensures NormalizeStateName(w1 + name + w2) == NormalizeStateName(name)
  {
    ToLowerAppend(w1 + name, w2);
    ToLowerAppend(w1, name);
    assert ToLower(w1) == w1 && ToLower(w2) == w2;
    TrimIgnoresSurroundingSpace(w1, ToLower(name), w2);
    assert LookupKey(w1 + name + w2) == LookupKey(name);
    if name == "" {
      assert LookupKey(name) == "";
    }
  }

  lemma CaseIgnored(a: string, b: string)
    requires ToLower(a) == ToLower(b)
    ensures NormalizeStateName(a) == NormalizeStateName(b)
  {
  }

  lemma KeptHasNoAmpersand(s: string)
    requires AllKept(s)
    ensures '&' !in s
  {
  }

  /** A name the alias table does not know takes the fallback, where each
      `&` is spelled out: two canonical names joined by " & " normalise to
      the same names joined by " and ". */
  lemma AmpersandSpelledOut(a: string, b: string)
    requires a != [] && b != [] && IsCanonical(a) && IsCanonical(b)
    requires a + " & " + b !in Aliases
    ensures NormalizeStateName(a + " & " + b) == a + " and " + b
  {
    AmpersandJoinIsKey(a, b);
    AmpersandJoinFallback(a, b);
  }

  lemma AmpersandJoinIsKey(a: string, b: string)
    requires a != [] && b != [] && IsCanonical(a) && IsCanonical(b)
    ensures LookupKey(a + " & " + b) == a + " & " + b
  {
    var s := a + " & " + b;
    assert NoUpper(s) && IsTrimmed(s) by {
      forall i | 0 <= i < |s| ensures !IsUpper(s[i]) {
        if i < |a| {
          assert s[i] == a[i] && IsKept(a[i]);
        } else if i >= |a| + 3 {
          assert s[i] == b[i - |a| - 3] && IsKept(b[i - |a| - 3]);
        }
      }
      assert s[0] == a[0] && s[|s| - 1] == b[|b| - 1];
    }
    LookupKeySpec(s);
  }

  lemma AmpersandJoinFallback(a: string, b: string)
    requires IsCanonical(a) && IsCanonical(b)
    ensures Fallback(a + " & " + b) == a + " and " + b
  {
    var t := a + " and " + b;
    KeptHasNoAmpersand(a);
    KeptHasNoAmpersand(b);
    ReplaceAmpersandsSpec(a);
    ReplaceAmpersandsSpec(b);
    assert a + " & " + b == a + (" & " + b);
    ReplaceAmpersandsAppend(a, " & " + b);
    ReplaceAmpersandsAppend(" & ", b);
    assert ReplaceAmpersands(" & ") == " and ";
    assert ReplaceAmpersands(a + " & " + b) == t;
    assert AllKept(t) by {
      forall i | 0 <= i < |t| ensures IsKept(t[i]) {
        if i < |a| {
          assert t[i] == a[i];
        } else if i >= |a| + 5 {
          assert t[i] == b[i - |a| - 5];
        }
      }
    }
    StripDisallowedSpec(t);
  }

  /** `isStateMatch` is an equivalence relation. */
  lemma MatchIsEquivalence(a: string, b: string, c: string)
    ensures IsStateMatch(a, a)
    ensures IsStateMatch(a, b) <==> IsStateMatch(b, a)
    ensures IsStateMatch(a, b) && IsStateMatch(b, c) ==> IsStateMatch(a, c)
  {
  }

  /** Lookup keys of the names used in OrissaMatchesOdisha. */
  lemma OrissaOdishaKeys()
    ensures LookupKey("Orissa") == "orissa"
    ensures LookupKey("Odisha") == "odisha"
  {
    assert ToLower("Orissa") == "orissa";
    assert ToLower("Odisha") == "odisha";
  }

  /** Lookup keys of the names used in AmpersandMatchesAnd. */
  lemma JammuKashmirKeys()
    ensures LookupKey("Jammu & Kashmir") == "jammu & kashmir"
    ensures LookupKey("Jammu and Kashmir") == "jammu and kashmir"
  {
    assert ToLower("Jammu & Kashmir") == "jammu & kashmir";
    assert ToLower("Jammu and Kashmir") == "jammu and kashmir";
  }

  /** Lookup keys of the names used in MergedTerritoriesMatch. */
  lemma MergedTerritoryKeys()
    ensures LookupKey("Dadra & Nagar Haveli") == "dadra & nagar haveli"
    ensures LookupKey("Daman & Diu") == "daman & diu"
  {
    DadraKey();
    assert ToLower("Daman & Diu") == "daman & diu";
  }

  lemma DadraKey()
    ensures LookupKey("Dadra & Nagar Haveli") == "dadra & nagar haveli"
  {
    assert ToLower("Dadra & Nagar Haveli") == "dadra & nagar haveli";
  }

  /** Lookup keys of the names used in ConstructorDoesNotMatchAsWritten. */
  lemma ConstructorKeys()
    ensures LookupKey("constructor") == "constructor"
    ensures LookupKey("constructor.") == "constructor."
  {
    assert ToLower("constructor") == "constructor";
    assert ToLower("constructor.") == "constructor.";
  }

  /** Two names match when their lookup keys have the same normal form. */
  lemma MatchThroughKeys(a: string, b: string, ka: string, kb: string)
    requires LookupKey(a) == ka && LookupKey(b) == kb
    requires NormalizeStateName(ka) == NormalizeStateName(kb)
    ensures IsStateMatch(a, b)
  {
    NormalizeDependsOnlyOnKey(a);
    NormalizeDependsOnlyOnKey(b);
  }

  /** A historical name matches its current one through the alias table. */
  lemma OrissaMatchesOdisha()
    ensures IsStateMatch("Orissa", "Odisha")
  {
    OrissaOdishaKeys();
    AliasKeysNormalizeToValues("orissa");
    ShortStandardNamesCanonical();
    CanonicalIsFixedPoint("odisha");
    MatchThroughKeys("Orissa", "Odisha", "orissa", "odisha");
  }

  /** The ampersand spelling matches the spelled-out one. */
  lemma AmpersandMatchesAnd()
    ensures IsStateMatch("Jammu & Kashmir", "Jammu and Kashmir")
  {
    JammuKashmirKeys();
    AliasKeysNormalizeToValues("jammu & kashmir");
    ShortStandardNamesCanonical();
    CanonicalIsFixedPoint("jammu and kashmir");
    MatchThroughKeys("Jammu & Kashmir", "Jammu and Kashmir", "jammu & kashmir", "jammu and kashmir");
  }

  /** The two former union territories match each other, both being aliases
      of the merged territory. */
  lemma MergedTerritoriesMatch()
    ensures IsStateMatch("Dadra & Nagar Haveli", "Daman & Diu")
  {
    MergedTerritoryKeys();
    AliasKeysNormalizeToValues("dadra & nagar haveli");
    AliasKeysNormalizeToValues("daman & diu");
    MatchThroughKeys("Dadra & Nagar Haveli", "Daman & Diu", "dadra & nagar haveli", "daman & diu");
  }

  // ---------------------------------------------------------------------
  // The lookup as written: `mappings[lower]` on an object literal
  // ---------------------------------------------------------------------

  /** The all-lower-case property names every object literal inherits from
      `Object.prototype`; `mappings[lower]` finds these too, and their values
      (a function and an object) are truthy. */
  const InheritedKeys: set<string> := {"constructor", "__proto__"}

  /** What `normalizeStateName` can return at run time: a string, or the
      inherited `Object.prototype` member named `key` (a function or an object,
      equal only to itself under `===`). */
  datatype JsValue = Text(text: string) | PrototypeMember(key: string)

  /** `normalizeStateName` as written, with the property lookup falling
      through to `Object.prototype`. */
  function NormalizeAsWritten(name: string): (r: JsValue)
    ensures r.PrototypeMember? <==> name != "" && LookupKey(name) in InheritedKeys
  {
    if name == "" then Text("")
    else
      var lower := LookupKey(name);
      if lower in Aliases then Text(Aliases[lower])
      else if lower in InheritedKeys then PrototypeMember(lower)
      else Text(Fallback(lower))
  }

  predicate IsStateMatchAsWritten(mapName: string, targetName: string) {
    NormalizeAsWritten(mapName) == NormalizeAsWritten(targetName)
  }

  /** Away from the inherited keys, the code as written and the corrected
      normaliser agree. */
  lemma AsWrittenAgreesElsewhere(name: string)
    requires LookupKey(name) !in InheritedKeys
    ensures NormalizeAsWritten(name) == Text(NormalizeStateName(name))
  {
  }

  /** "constructor" and "constructor." have the same corrected normal form,
      but as written the first normalises to the `Object` function, so the
      two names do not match. */
  lemma ConstructorDoesNotMatchAsWritten()
    ensures !IsStateMatchAsWritten("constructor", "constructor.")
    ensures IsStateMatch("constructor", "constructor.")
  {
    ConstructorIsInherited();
    ConstructorNormalForm();
    ConstructorDotNormalForm();
  }

  lemma ConstructorIsInherited()
    ensures NormalizeAsWritten("constructor").PrototypeMember?
    ensures NormalizeAsWritten("constructor.").Text?
  {
    ConstructorKeys();
    assert "constructor." !in Aliases && "constructor." !in InheritedKeys;
  }

  lemma ConstructorIsCanonical()
    ensures IsCanonical("constructor")
  {
    assert AllKept("constructor");
  }

  lemma ConstructorNormalForm()
    ensures NormalizeStateName("constructor") == "constructor"
  {
    ConstructorIsCanonical();
    CanonicalIsFixedPoint("constructor");
  }

  lemma ConstructorDotNormalForm()
    ensures NormalizeStateName("constructor.") == "constructor"
  {
    ConstructorIsCanonical();
    assert "constructor." == "constructor" + ".";
    DisallowedTailDropped("constructor", ".");
  }

  /** Punctuation after a canonical name is removed by the fallback, so the
      name with it normalises to the name without it (unless the longer
      string is itself an alias). */
  lemma DisallowedTailDropped(k: string, d: string)
    requires k != [] && IsCanonical(k) && k + d !in Aliases
    requires forall i :: 0 <= i < |d| ==> !IsKept(d[i]) && !IsUpper(d[i]) && d[i] != '&'
    ensures NormalizeStateName(k + d) == k
  {
    var s := k + d;
    assert NoUpper(s) by {
      forall i | 0 <= i < |s| ensures !IsUpper(s[i]) {
        if i < |k| {
          assert s[i] == k[i] && IsKept(k[i]);
        } else {
          assert s[i] == d[i - |k|];
        }
      }
    }
    assert IsTrimmed(s) by {
      assert s[0] == k[0];
      if d != [] {
        assert s[|s| - 1] == d[|d| - 1];
      } else {
        assert s[|s| - 1] == k[|k| - 1];
      }
    }
    LookupKeySpec(s);
    assert '&' !in s by {
      forall i | 0 <= i < |s| ensures s[i] != '&' {
        if i < |k| {
          assert s[i] == k[i] && IsKept(k[i]);
        } else {
          assert s[i] == d[i - |k|];
        }
      }
    }
    ReplaceAmpersandsSpec(s);
    StripKeptThenDropped(k, d);
  }

  lemma {:induction false} StripKeptThenDropped(kept: string, dropped: string)
    requires AllKept(kept) && NoneKept(dropped)
    ensures StripDisallowed(kept + dropped) == kept
  {
    if kept == [] {
      assert kept + dropped == dropped;
      StripNoneKept(dropped);
    } else {
      assert (kept + dropped)[1..] == kept[1..] + dropped;
      StripKeptThenDropped(kept[1..], dropped);
    }
  }

  lemma {:induction false} StripNoneKept(s: string)
    requires NoneKept(s)
    ensures StripDisallowed(s) == []
  {
    if s != [] {
      StripNoneKept(s[1..]);
    }
  }
}
