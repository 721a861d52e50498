/**
 `sql_inject_check`: a naive SQL-injection guard that deletes every
 character of a fixed denylist from a string and lets any other value
 through. The regular expression it compiles is an alternation of eleven
 single characters, so it is modelled as membership in a character set;
 `re.search` becomes `Search` and `re.sub(regex, "", s)` becomes `Strip`.
 */
module Sanitizer {
  import opened Wrappers
  import opened Values

  /** The characters the pattern matches: `+ ; = < > | ` ' " / \`. */
  const Denylist: set<char> := {'+', ';', '=', '<', '>', '|', '`', '\'', '"', '/', '\\'}

  predicate Denied(c: char)
  {
    c in Denylist
  }

  /** No character of `s` is on the denylist. */
  predicate Clean(s: string)
  {
    forall i :: 0 <= i < |s| ==> !Denied(s[i])
  }

  /** `re.search`: the position of the leftmost denylisted character, if any. */
  function Search(s: string): (r: Option<nat>)
    ensures r.Some? ==> r.value < |s| && Denied(s[r.value])
    ensures r.Some? ==> forall j :: 0 <= j < r.value ==> !Denied(s[j])
    ensures r.None? <==> Clean(s)
    decreases |s|
  {
    if |s| == 0 then None
    else if Denied(s[0]) then Some(0)
    else
      match Search(s[1..])
      case None => None
      case Some(i) => Some(i + 1)
  }

  /** `re.sub(regex, "", s)`: `s` with every denylisted character deleted. */
  function Strip(s: string): (r: string)
    ensures Clean(r)
    ensures |r| <= |s|
    decreases |s|
  {
    if |s| == 0 then []
    else (if Denied(s[0]) then [] else [s[0]]) + Strip(s[1..])
  }

  /** The same substitution as a left-to-right scan over the string. */
  method Substitute(s: string) returns (r: string)
    ensures r == Strip(s)
  {
    r := [];
    var i := 0;
    while i < |s|
      invariant 0 <= i <= |s|
      invariant r == Strip(s[..i])
    {
      StripAppend(s[..i], [s[i]]);
      assert s[..i + 1] == s[..i] + [s[i]];
      if !Denied(s[i]) {
        r := r + [s[i]];
      }
      i := i + 1;
    }
    assert s[..i] == s;
  }

  /**
   `sql_inject_check(value)`: a string with a denylisted character comes
   back stripped; a clean string, and any value that is not a string, comes
   back as given.
   */
  function SqlInjectCheck(v: Value): (r: Value)
    ensures !v.Str? ==> r == v
    ensures v.Str? ==> r.Str? && r.s == Strip(v.s)
    ensures v.Str? && Clean(v.s) ==> r == v
  {
    match v
    case Str(s) =>
      if Search(s).Some? then Str(Strip(s))
      else StripCleanIdentity(s); v
    case _ => v
  }

  /** Stripping distributes over concatenation. */
  lemma {:induction false} StripAppend(a: string, b: string)
    ensures Strip(a + b) == Strip(a) + Strip(b)
    decreases |a|
  {
    if |a| > 0 {
      assert (a + b)[1..] == a[1..] + b;
      StripAppend(a[1..], b);
    } else {
      assert a + b == b;
    }
  }

  /** Stripping leaves a string unchanged exactly when it is clean. */
  lemma {:induction false} StripCleanIdentity(s: string)
    ensures Strip(s) == s <==> Clean(s)
    decreases |s|
  {
    if |s| > 0 && Clean(s) {
      assert Clean(s[1..]) by {
        forall i | 0 <= i < |s[1..]| ensures !Denied(s[1..][i]) {
          assert s[1..][i] == s[i + 1];
        }
      }
      StripCleanIdentity(s[1..]);
      assert s == [s[0]] + s[1..];
    }
  }

  /** Stripping shortens a string exactly when it holds a denylisted character. */
  lemma {:induction false} StripShrinks(s: string)
    ensures |Strip(s)| < |s| <==> !Clean(s)
    decreases |s|
  {
    if Clean(s) {
      StripCleanIdentity(s);
    } else {
      var k :| 0 <= k < |s| && Denied(s[k]);
      if !Denied(s[0]) {
        assert s[1..][k - 1] == s[k];
        StripShrinks(s[1..]);
      }
    }
  }

  /** `r` keeps some of the characters of `s`, in their order in `s`. */
  ghost predicate IsSubsequence(r: string, s: string)
    decreases |s|
  {
    if |r| == 0 then true
    else if |s| == 0 then false
    else (r[0] == s[0] && IsSubsequence(r[1..], s[1..])) || IsSubsequence(r, s[1..])
  }

  /** Every character off the denylist occurs as often in `r` as in `s`. */
  ghost predicate KeepsAllowed(r: string, s: string)
  {
    forall c :: !Denied(c) ==> multiset(r)[c] == multiset(s)[c]
  }

  lemma {:induction false} SubsequenceMultiset(r: string, s: string)
    requires IsSubsequence(r, s)
    ensures multiset(r) <= multiset(s)
    decreases |s|
  {
    if |r| > 0 {
      assert s == [s[0]] + s[1..];
      if IsSubsequence(r, s[1..]) {
        SubsequenceMultiset(r, s[1..]);
      } else {
        assert r == [r[0]] + r[1..];
        SubsequenceMultiset(r[1..], s[1..]);
      }
    }
  }

  /** `Strip(s)` is a clean subsequence of `s` that keeps every allowed character. */
  lemma {:induction false} StripIsFilter(s: string)
    ensures IsSubsequence(Strip(s), s)
    ensures KeepsAllowed(Strip(s), s)
    decreases |s|
  {
    if |s| > 0 {
      StripIsFilter(s[1..]);
      assert s == [s[0]] + s[1..];
      var rest := Strip(s[1..]);
      if Denied(s[0]) {
        assert Strip(s) == rest;
      } else {
        assert Strip(s) == [s[0]] + rest;
        assert Strip(s)[1..] == rest;
      }
    }
  }

  /** ... and it is the only one: the filter is determined by those three facts. */
  lemma {:induction false} FilterIsStrip(r: string, s: string)
    requires IsSubsequence(r, s)
    requires Clean(r)
    requires KeepsAllowed(r, s)
    ensures r == Strip(s)
    decreases |s|
  {
    if |s| == 0 {
      return;
    }
    var c := s[0];
    assert s == [c] + s[1..];
    if Denied(c) {
      if |r| > 0 && r[0] == c {
        assert false;
      }
      assert IsSubsequence(r, s[1..]);
      FilterIsStrip(r, s[1..]);
    } else {
      if IsSubsequence(r, s[1..]) {
        SubsequenceMultiset(r, s[1..]);
        assert false;
      }
      assert r == [c] + r[1..];
      assert Clean(r[1..]) by {
        forall i | 0 <= i < |r[1..]| ensures !Denied(r[1..][i]) {
          assert r[1..][i] == r[i + 1];
        }
      }
      FilterIsStrip(r[1..], s[1..]);
    }
  }

  /** Sanitizing twice is sanitizing once. */
  lemma SqlInjectCheckIdempotent(v: Value)
    ensures SqlInjectCheck(SqlInjectCheck(v)) == SqlInjectCheck(v)
  {
  }

  /** All occurrences of all denylisted characters go, not only the first. */
  lemma SqlInjectCheckExamples()
    ensures SqlInjectCheck(Str("a;b=c")) == Str("abc")
    ensures SqlInjectCheck(Int(42)) == Int(42)
  {
  }
}
