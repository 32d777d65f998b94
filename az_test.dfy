/**
 * The filter editing and environment registration of AZ::Test.
 *
 * A gtest filter reads "POSITIVE-NEGATIVE": the text before the first '-'
 * lists the patterns a test must match, the text after it the patterns it
 * must not match, each list separated by ':'. AddExcludeFilter and
 * AddIncludeFilter rewrite the global filter string; the lemmas below say
 * what the rewrites do to those two lists.
 */
module AzTest {
  import opened Wrappers

  /** The ':'-separated pieces of `s`, empty ones included; there is always at least one. */
  function Split(s: string): (r: seq<string>)
    ensures |r| >= 1
  {
    if s == [] then [""]
    else
      var rest := Split(s[1..]);
      if s[0] == ':' then [""] + rest else [[s[0]] + rest[0]] + rest[1..]
  }

  /** The non-empty entries of `pieces`: an empty piece matches no test name. */
  function NonEmpty(pieces: seq<string>): seq<string>
  {
    if pieces == [] then []
    else (if pieces[0] == "" then [] else [pieces[0]]) + NonEmpty(pieces[1..])
  }

  /** The patterns of a ':'-separated list. */
  function Patterns(s: string): seq<string>
  {
    NonEmpty(Split(s))
  }

  /** `s` cut at its first `c`: the text before it, and the text after it when `c` occurs. */
  function Cut(s: string, c: char): (string, Option<string>)
  {
    if s == [] then ("", None)
    else if s[0] == c then ("", Some(s[1..]))
    else
      var r := Cut(s[1..], c);
      ([s[0]] + r.0, r.1)
  }

  /** The patterns a test must match: those before the first '-'. */
  function Positive(filter: string): seq<string>
  {
    Patterns(Cut(filter, '-').0)
  }

  /** The patterns a test must not match: those after the first '-'. */
  function Negative(filter: string): seq<string>
  {
    var after := Cut(filter, '-').1;
    if after.Some? then Patterns(after.value) else []
  }

  /** A single test-name pattern: non-empty, with no separator and no negation marker. */
  predicate IsPattern(name: string)
  {
    name != "" && ':' !in name && '-' !in name
  }

  /** The filter AddExcludeFilter leaves behind. */
  function ExcludedFilter(filter: string, name: string): string
  {
    if filter == "*" then "-" + name
    else if '-' !in filter then filter + ":-" + name
    else filter + ":" + name
  }

  /** The filter AddIncludeFilter leaves behind. */
  function IncludedFilter(filter: string, name: string): string
  {
    if filter == "*" then name else name + ":" + filter
  }

  /** The non-null entries of `envs`, in order. */
  function NonNull(envs: seq<Option<TestEnvironment>>): seq<TestEnvironment>
  {
    if envs == [] then []
    else (if envs[0].Some? then [envs[0].value] else []) + NonNull(envs[1..])
  }

  lemma {:induction false} NonNullConcat(a: seq<Option<TestEnvironment>>, b: seq<Option<TestEnvironment>>)
    ensures NonNull(a + b) == NonNull(a) + NonNull(b)
    decreases |a|
  {
    if a == [] {
      assert a + b == b;
    } else {
      assert (a + b)[0] == a[0] && (a + b)[1..] == a[1..] + b;
      NonNullConcat(a[1..], b);
    }
  }

  /** Exactly the non-null entries are registered, and nothing else. */
  lemma {:induction false} NonNullMembers(envs: seq<Option<TestEnvironment>>, x: TestEnvironment)
    ensures x in NonNull(envs) <==> Some(x) in envs
    ensures |NonNull(envs)| <= |envs|
    decreases |envs|
  {
    if envs != [] {
      NonNullMembers(envs[1..], x);
      assert envs == [envs[0]] + envs[1..];
    }
  }

  /** Cutting finds nothing exactly when `c` does not occur, and then keeps all of `s`. */
  lemma {:induction false} CutMissing(s: string, c: char)
    ensures Cut(s, c).1 == None <==> c !in s
    ensures c !in s ==> Cut(s, c).0 == s
    decreases |s|
  {
    if s != [] && s[0] != c {
      CutMissing(s[1..], c);
      assert s == [s[0]] + s[1..];
    }
  }

  /** When `a` holds no `c`, the cut of `a + b` is in `b`. */
  lemma {:induction false} CutAfterPlain(a: string, b: string, c: char)
    requires c !in a
    ensures Cut(a + b, c) == (a + Cut(b, c).0, Cut(b, c).1)
    decreases |a|
  {
    if a == [] {
      assert a + b == b && a + Cut(b, c).0 == Cut(b, c).0;
    } else {
      assert (a + b)[1..] == a[1..] + b;
      CutAfterPlain(a[1..], b, c);
      assert [a[0]] + (a[1..] + Cut(b, c).0) == a + Cut(b, c).0;
    }
  }

  /** When `a` holds a `c`, the cut of `a + b` is in `a`, and `b` follows the text after it. */
  lemma {:induction false} CutInPrefix(a: string, b: string, c: char)
    requires Cut(a, c).1.Some?
    ensures Cut(a + b, c) == (Cut(a, c).0, Some(Cut(a, c).1.value + b))
    decreases |a|
  {
    assert a != [];
    assert (a + b)[1..] == a[1..] + b;
    if a[0] != c {
      CutInPrefix(a[1..], b, c);
    }
  }

  /** Splitting at a ':' splits the list of pieces. */
  lemma {:induction false} SplitJoin(a: string, b: string)
    ensures Split(a + ":" + b) == Split(a) + Split(b)
    decreases |a|
  {
    if a == [] {
      assert a + ":" + b == [':'] + b;
      assert ([':'] + b)[1..] == b;
    } else {
      var s := a + ":" + b;
      assert s[0] == a[0] && s[1..] == a[1..] + ":" + b;
      SplitJoin(a[1..], b);
    }
  }

  lemma {:induction false} NonEmptyConcat(x: seq<string>, y: seq<string>)
    ensures NonEmpty(x + y) == NonEmpty(x) + NonEmpty(y)
    decreases |x|
  {
    if x == [] {
      assert x + y == y;
    } else {
      assert (x + y)[1..] == x[1..] + y;
      NonEmptyConcat(x[1..], y);
    }
  }

  /** Joining two lists with ':' joins their patterns. */
  lemma PatternsJoin(a: string, b: string)
    ensures Patterns(a + ":" + b) == Patterns(a) + Patterns(b)
  {
    SplitJoin(a, b);
    NonEmptyConcat(Split(a), Split(b));
  }

  /** A text without ':' is a single piece. */
  lemma {:induction false} SplitPlain(s: string)
    requires ':' !in s
    ensures Split(s) == [s]
    decreases |s|
  {
    if s != [] {
      assert s == [s[0]] + s[1..];
      SplitPlain(s[1..]);
    }
  }

  /** A pattern read as a list is that one pattern. */
  lemma PatternOfName(name: string)
    requires IsPattern(name)
    ensures Patterns(name) == [name]
  {
    SplitPlain(name);
    assert [name][1..] == [];
    assert NonEmpty([name]) == [name] + NonEmpty([]);
  }

  lemma ExcludeFromWildcard(name: string)
    requires IsPattern(name)
    ensures Positive(ExcludedFilter("*", name)) == [] && Negative(ExcludedFilter("*", name)) == [name]
  {
    var r := "-" + name;
    assert r[0] == '-' && r[1..] == name;
    PatternOfName(name);
  }

  lemma ExcludeWithoutDash(filter: string, name: string)
    requires IsPattern(name) && filter != "*" && '-' !in filter
    ensures Positive(ExcludedFilter(filter, name)) == Positive(filter)
    ensures Negative(ExcludedFilter(filter, name)) == [name]
  {
    var r := filter + ":-" + name;
    var rest := "-" + name;
    assert r == (filter + ":") + rest;
    assert rest[0] == '-' && rest[1..] == name;
    CutAfterPlain(filter + ":", rest, '-');
    assert Cut(r, '-') == (filter + ":" + "", Some(name));
    PatternsJoin(filter, "");
    CutMissing(filter, '-');
    PatternOfName(name);
  }

  lemma ExcludeWithDash(filter: string, name: string)
    requires IsPattern(name) && '-' in filter
    ensures Positive(ExcludedFilter(filter, name)) == Positive(filter)
    ensures Negative(ExcludedFilter(filter, name)) == Negative(filter) + [name]
  {
    CutMissing(filter, '-');
    var t := Cut(filter, '-').1.value;
    CutInPrefix(filter, ":" + name, '-');
    assert filter + ":" + name == filter + (":" + name);
    assert t + (":" + name) == t + ":" + name;
    PatternsJoin(t, name);
    PatternOfName(name);
  }

  /**
   * Excluding a pattern appends it to the negative list and keeps the positive
   * list; from the wildcard the result has no positive pattern, which gtest
   * reads as "every test".
   */
  lemma ExcludeMeaning(filter: string, name: string)
    requires IsPattern(name)
    ensures filter == "*" ==> Positive(ExcludedFilter(filter, name)) == []
    ensures filter != "*" ==> Positive(ExcludedFilter(filter, name)) == Positive(filter)
    ensures Negative(ExcludedFilter(filter, name)) == Negative(filter) + [name]
  {
    if filter == "*" {
      ExcludeFromWildcard(name);
      CutMissing(filter, '-');
    } else if '-' !in filter {
      ExcludeWithoutDash(filter, name);
      CutMissing(filter, '-');
    } else {
      ExcludeWithDash(filter, name);
    }
  }

  /**
   * Including a pattern replaces the wildcard by it, and otherwise puts it in
   * front of the positive list; the negative list is kept.
   */
  lemma IncludeMeaning(filter: string, name: string)
    requires IsPattern(name)
    ensures filter == "*" ==> Positive(IncludedFilter(filter, name)) == [name]
    ensures filter != "*" ==> Positive(IncludedFilter(filter, name)) == [name] + Positive(filter)
    ensures Negative(IncludedFilter(filter, name)) == Negative(filter)
  {
    CutMissing(name, '-');
    PatternOfName(name);
    if filter == "*" {
      CutMissing(filter, '-');
    } else {
      assert name + ":" + filter == (name + ":") + filter;
      CutAfterPlain(name + ":", filter, '-');
      PatternsJoin(name, Cut(filter, '-').0);
    }
  }

  /** Excluding the integration tests adds both of their prefixes to the negative list. */
  lemma ExcludeIntegMeaning(filter: string)
    ensures Negative(ExcludedFilter(ExcludedFilter(filter, "INTEG_*"), "Integ_*")) == Negative(filter) + ["INTEG_*", "Integ_*"]
  {
    var mid := ExcludedFilter(filter, "INTEG_*");
    assert Negative(mid) == Negative(filter) + ["INTEG_*"] by {
      ExcludeMeaning(filter, "INTEG_*");
    }
    assert Negative(ExcludedFilter(mid, "Integ_*")) == Negative(mid) + ["Integ_*"] by {
      ExcludeMeaning(mid, "Integ_*");
    }
  }

  /** Running only the integration tests leaves the negative list alone. */
  lemma RunOnlyIntegMeaning(filter: string)
    ensures Negative(IncludedFilter(IncludedFilter(filter, "INTEG_*"), "Integ_*")) == Negative(filter)
    ensures filter != "*" ==> Positive(IncludedFilter(IncludedFilter(filter, "INTEG_*"), "Integ_*")) == ["Integ_*", "INTEG_*"] + Positive(filter)
  {
    var mid := IncludedFilter(filter, "INTEG_*");
    assert Negative(mid) == Negative(filter) && (filter != "*" ==> Positive(mid) == ["INTEG_*"] + Positive(filter)) by {
      IncludeMeaning(filter, "INTEG_*");
    }
    assert |mid| >= 7;
    assert Negative(IncludedFilter(mid, "Integ_*")) == Negative(mid) && Positive(IncludedFilter(mid, "Integ_*")) == ["Integ_*"] + Positive(mid) by {
      IncludeMeaning(mid, "Integ_*");
    }
  }

  lemma IntegExclusionFromWildcard()
    ensures ExcludedFilter(ExcludedFilter("*", "INTEG_*"), "Integ_*") == "-INTEG_*:Integ_*"
  {
    assert ExcludedFilter("*", "INTEG_*")[0] == '-';
  }

  /** A gtest environment: the default trace-bus hook or one supplied by the caller. */
  datatype TestEnvironment = TraceBusHook | Environment(id: nat)

  /** The gtest globals the functions below edit. */
  class TestGlobals {
    /** GTEST_FLAG(filter) */
    var filter: string
    /** The global test environments registered with gtest, in order. */
    var environments: seq<TestEnvironment>

    constructor()
      ensures filter == "*" && environments == []
    {
      filter, environments := "*", [];
    }

    method AddExcludeFilter(name: string)
      modifies this`filter
      ensures filter == ExcludedFilter(old(filter), name)
    {
      var currentFilter := filter;
      if currentFilter == "*" {
        filter := "-";
      } else {
        if '-' !in currentFilter {
          filter := filter + ":-";
        } else {
          filter := filter + ":";
        }
      }
      filter := filter + name;
    }

    method AddIncludeFilter(name: string)
      modifies this`filter
      ensures filter == IncludedFilter(old(filter), name)
    {
      var currentFilter := filter;
      if currentFilter == "*" {
        filter := name;
      } else {
        filter := name + ":" + currentFilter;
      }
    }

    /** Filter out integration tests. */
    method ExcludeIntegTests()
      modifies this`filter
      ensures filter == ExcludedFilter(ExcludedFilter(old(filter), "INTEG_*"), "Integ_*")
      ensures old(filter) == "*" ==> filter == "-INTEG_*:Integ_*"
    {
      ghost var start := filter;
      AddExcludeFilter("INTEG_*");
      AddExcludeFilter("Integ_*");
      if start == "*" {
        IntegExclusionFromWildcard();
      }
    }

    /** Run only integration tests. */
    method RunOnlyIntegTests()
      modifies this`filter
      ensures filter == IncludedFilter(IncludedFilter(old(filter), "INTEG_*"), "Integ_*")
      ensures old(filter) == "*" ==> filter == "Integ_*:INTEG_*"
    {
      AddIncludeFilter("INTEG_*");
      AddIncludeFilter("Integ_*");
    }

    method FilterOutSuites()
      modifies this`filter
      ensures filter == ExcludedFilter(old(filter), "Suite_*")
      ensures Negative(filter) == Negative(old(filter)) + ["Suite_*"]
    {
      ExcludeMeaning(filter, "Suite_*");
      AddExcludeFilter("Suite_*");
    }

    method FilterToSpecificSuite(suiteName: string)
      modifies this`filter
      ensures filter == IncludedFilter(old(filter), "Suite_" + suiteName + "*")
      ensures IsPattern(suiteName) ==> Negative(filter) == Negative(old(filter))
    {
      var suiteFilter := "Suite_" + suiteName + "*";
      if IsPattern(suiteName) {
        assert ':' !in suiteFilter && '-' !in suiteFilter by {
          assert forall k :: 0 <= k < |suiteFilter| ==> suiteFilter[k] in "Suite_*" || suiteFilter[k] in suiteName;
        }
        IncludeMeaning(filter, suiteFilter);
      }
      AddIncludeFilter(suiteFilter);
    }

    method AddTestEnvironment(env: TestEnvironment)
      modifies this`environments
      ensures environments == old(environments) + [env]
    {
      environments := environments + [env];
    }

    /** With no environments the default hook is added; otherwise every non-null one, in order. */
    method AddTestEnvironments(envs: seq<Option<TestEnvironment>>)
      modifies this`environments
      ensures envs == [] ==> environments == old(environments) + [TraceBusHook]
      ensures envs != [] ==> environments == old(environments) + NonNull(envs)
    {
      if envs == [] {
        AddTestEnvironment(TraceBusHook);
      } else {
        var i := 0;
        while i < |envs|
          invariant 0 <= i <= |envs|
          invariant environments == old(environments) + NonNull(envs[..i])
        {
          NonNullConcat(envs[..i], [envs[i]]);
          assert envs[..i + 1] == envs[..i] + [envs[i]];
          if envs[i].Some? {
            AddTestEnvironment(envs[i].value);
          }
          i := i + 1;
        }
        assert envs[..i] == envs;
      }
    }
  }
}
