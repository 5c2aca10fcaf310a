/** Dot-separated domain names and the derivation of a name's base zone
    (`getBaseDomain` in main.go). */
module Domains {

  /** The number of '.' characters in `s`. */
  function Dots(s: string): nat
  {
    if s == [] then 0 else (if s[0] == '.' then 1 else 0) + Dots(s[1..])
  }

  /** A string has a dot exactly when its dot count is positive. */
  lemma {:induction false} DotsPositive(s: string)
    ensures '.' in s <==> Dots(s) > 0
  {
    if s != [] {
      DotsPositive(s[1..]);
      assert s == [s[0]] + s[1..];
    }
  }

  /** Dot counts add up over concatenation. */
  lemma {:induction false} DotsAppend(a: string, b: string)
    ensures Dots(a + b) == Dots(a) + Dots(b)
  {
    if a != [] {
      DotsAppend(a[1..], b);
      assert (a + b)[1..] == a[1..] + b;
    } else {
      assert a + b == b;
    }
  }

  /** Joins labels with '.' between consecutive labels (Go's strings.Join(labels, ".")
      for a non-empty list). */
  function Join(labels: seq<string>): string
    requires |labels| >= 1
  {
    if |labels| == 1 then labels[0] else labels[0] + "." + Join(labels[1..])
  }

  /** Splits `s` at every '.', as Go's strings.Split(s, ".") does: a string with n dots
      gives n + 1 dot-free labels, adjacent dots give empty labels, and the empty string
      gives the single label "". Joining the labels back gives `s`. */
  function Split(s: string): (labels: seq<string>)
    ensures |labels| == Dots(s) + 1
    ensures forall i :: 0 <= i < |labels| ==> '.' !in labels[i]
    ensures Join(labels) == s
  {
    if s == [] then [""]
    else
      var rest := Split(s[1..]);
      assert s == [s[0]] + s[1..];
      if s[0] == '.' then
        assert ([""] + rest)[1..] == rest;
        [""] + rest
      else
        var labels := [[s[0]] + rest[0]] + rest[1..];
        assert labels[1..] == rest[1..];
        assert |rest| > 1 ==> Join(rest) == rest[0] + "." + Join(rest[1..]);
        labels
  }

  /** Splitting a dot-free string gives that string as the only label. */
  lemma {:induction false} SplitDotFree(a: string)
    requires '.' !in a
    ensures Split(a) == [a]
  {
    if a != [] {
      assert '.' !in a[1..] by {
        forall k | 0 <= k < |a[1..]| ensures a[1..][k] != '.' {
          assert a[1..][k] == a[k + 1];
        }
      }
      SplitDotFree(a[1..]);
      assert [a[0]] + a[1..] == a;
    }
  }

  /** Splitting `a + "." + t`, with `a` dot-free, gives `a` followed by the labels of `t`. */
  lemma {:induction false} SplitLeadingLabel(a: string, t: string)
    requires '.' !in a
    ensures Split(a + "." + t) == [a] + Split(t)
  {
    var s := a + "." + t;
    if a == [] {
      assert s == "." + t;
      assert s[1..] == t;
    } else {
      assert '.' !in a[1..] by {
        forall k | 0 <= k < |a[1..]| ensures a[1..][k] != '.' {
          assert a[1..][k] == a[k + 1];
        }
      }
      assert s[1..] == a[1..] + "." + t;
      assert s[0] == a[0] && s != [];
      SplitLeadingLabel(a[1..], t);
      var rest := Split(s[1..]);
      assert rest == [a[1..]] + Split(t);
      assert rest[0] == a[1..] && rest[1..] == Split(t);
      assert Split(s) == [[s[0]] + rest[0]] + rest[1..];
      assert [a[0]] + a[1..] == a;
    }
  }

  /** Split inverts Join on lists of dot-free labels (the other half of the round trip
      stated by Split's own contract). */
  lemma {:induction false} SplitJoin(labels: seq<string>)
    requires |labels| >= 1
    requires forall i :: 0 <= i < |labels| ==> '.' !in labels[i]
    ensures Split(Join(labels)) == labels
  {
    if |labels| == 1 {
      SplitDotFree(labels[0]);
    } else {
      SplitJoin(labels[1..]);
      SplitLeadingLabel(labels[0], Join(labels[1..]));
      assert [labels[0]] + labels[1..] == labels;
    }
  }

  /** Peeling the last label off a join. */
  lemma {:induction false} JoinLast(labels: seq<string>)
    requires |labels| >= 2
    ensures Join(labels) == Join(labels[..|labels| - 1]) + "." + labels[|labels| - 1]
  {
    if |labels| > 2 {
      var tail := labels[1..];
      JoinLast(tail);
      assert tail[..|tail| - 1] == labels[..|labels| - 1][1..];
    }
  }

  /** `t` is a suffix of `domain` holding exactly one dot, and it starts either at the
      beginning of `domain` or right after a dot: the last two labels of `domain`. */
  predicate IsZoneSuffix(t: string, domain: string)
  {
    && |t| <= |domain|
    && t == domain[|domain| - |t|..]
    && Dots(t) == 1
    && (t == domain || domain[|domain| - |t| - 1] == '.')
  }

  /** The base zone of a domain: its last two labels joined by '.'
      ("asdf.test.jonaz.net" gives "jonaz.net"). A domain without a dot has fewer than
      two labels and is rejected, as `getBaseDomain` indexes `tmp[-1]` on it and panics. */
  function BaseDomain(domain: string): (base: string)
    requires '.' in domain
    ensures IsZoneSuffix(base, domain)
  {
    var labels := Split(domain);
    var n := |labels|;
    DotsPositive(domain);
    var base := labels[n - 2] + "." + labels[n - 1];
    DotsPositive(labels[n - 2]);
    DotsPositive(labels[n - 1]);
    DotsAppend(labels[n - 2], ".");
    DotsAppend(labels[n - 2] + ".", labels[n - 1]);
    JoinLast(labels);
    if n == 2 then
      assert labels[..1] == [labels[0]];
      base
    else
      JoinLast(labels[..n - 1]);
      assert labels[..n - 1][..n - 2] == labels[..n - 2];
      var head := Join(labels[..n - 2]);
      assert domain == (head + ".") + base;
      base
  }

  /** A domain has at most one zone suffix. */
  lemma ZoneSuffixUnique(domain: string, t: string, b: string)
    requires IsZoneSuffix(t, domain) && IsZoneSuffix(b, domain)
    ensures t == b
  {
    if |t| < |b| {
      ZoneSuffixShorter(domain, t, b);
    } else if |t| > |b| {
      ZoneSuffixShorter(domain, b, t);
    } else {
      assert t == domain[|domain| - |t|..] == b;
    }
  }

  /** No zone suffix is shorter than another: the longer one would hold a second dot. */
  lemma ZoneSuffixShorter(domain: string, t: string, b: string)
    requires IsZoneSuffix(t, domain) && IsZoneSuffix(b, domain)
    ensures |t| >= |b|
  {
    if |t| < |b| {
      // b = x + t where x is non-empty and ends in '.' (t != domain), so b has two dots
      var x := b[..|b| - |t|];
      assert b[|b| - |t|..] == t;
      assert b == x + t;
      assert x[|x| - 1] == b[|b| - |t| - 1] == domain[|domain| - |t| - 1];
      assert '.' in x;
      DotsPositive(x);
      DotsAppend(x, t);
      assert false;
    }
  }

  /** A string that is itself a zone suffix of `domain` is THE base zone: the contract of
      BaseDomain pins its result down uniquely. */
  lemma BaseDomainUnique(domain: string, t: string)
    requires '.' in domain
    requires IsZoneSuffix(t, domain)
    ensures t == BaseDomain(domain)
  {
    ZoneSuffixUnique(domain, t, BaseDomain(domain));
  }

  /** getBaseDomain is idempotent: the base zone of a base zone is itself. */
  lemma BaseDomainIdempotent(domain: string)
    requires '.' in domain
    ensures '.' in BaseDomain(domain)
    ensures BaseDomain(BaseDomain(domain)) == BaseDomain(domain)
  {
    var b := BaseDomain(domain);
    DotsPositive(b);
    BaseDomainUnique(b, b);
  }

  /** The example of `TestGetBaseDomain` in domain_test.go. */
  lemma BaseDomainExample()
    ensures BaseDomain("asdf.test.jonaz.net") == "jonaz.net"
  {
    var d := "asdf.test.jonaz.net";
    assert d == "asdf.test." + "jonaz.net";
    DotsPositive("jonaz");
    DotsPositive("net");
    DotsAppend("jonaz", ".");
    DotsAppend("jonaz.", "net");
    assert "jonaz.net" == "jonaz." + "net";
    BaseDomainUnique(d, "jonaz.net");
  }

  /** The naive last-two-labels rule, kept as written: a name under a two-label public
      suffix gets the public suffix itself as its zone. */
  lemma BaseDomainPublicSuffix()
    ensures BaseDomain("www.example.co.uk") == "co.uk"
  {
    var d := "www.example.co.uk";
    assert d == "www.example." + "co.uk";
    DotsPositive("co");
    DotsPositive("uk");
    DotsAppend("co", ".");
    DotsAppend("co.", "uk");
    assert "co.uk" == "co." + "uk";
    BaseDomainUnique(d, "co.uk");
  }
}
