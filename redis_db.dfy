/**
 * The session store's database number, taken from the path of the Redis URL
 * (gateway.py line 89): the path, or '/0' when it is empty, with slashes
 * stripped from both ends and parsed as an integer.
 */
module RedisDb {
  import opened Wrappers
  import opened Text

  predicate AllSlashes(path: string) {
    forall k :: 0 <= k < |path| ==> path[k] == '/'
  }

  /** Line 89 as written: an empty path means '/0'; `None` is the ValueError `int` raises. */
  function DbNumberAsWritten(path: string): (r: Option<int>)
    ensures path == "" ==> r == Some(0)
    ensures path != "" && AllSlashes(path) ==> r == None
  {
    StripEmptyIff(path, '/');
    ZeroPathStrips();
    ParseIntOfNatToString(0);
    ParseInt(Strip(if path == "" then "/0" else path, '/'))
  }

  /** The database number with the default applied whenever no number is given. */
  function DbNumber(path: string): (r: Option<int>)
    ensures AllSlashes(path) ==> r == Some(0)
    ensures !AllSlashes(path) ==> r == DbNumberAsWritten(path)
  {
    StripEmptyIff(path, '/');
    var digits := Strip(path, '/');
    if digits == "" then Some(0) else ParseInt(digits)
  }

  /** The default path '/0' strips to the numeral of 0. */
  lemma ZeroPathStrips()
    ensures Strip("/0", '/') == NatToString(0) == "0"
  {
  }

  /** As written, '/n' and '/n/' select database n. */
  lemma DbNumberAsWrittenOfNumber(n: nat)
    ensures DbNumberAsWritten("/" + NatToString(n)) == Some(n)
    ensures DbNumberAsWritten("/" + NatToString(n) + "/") == Some(n)
  {
    var digits := NatToString(n);
    assert Slashes(1) == "/";
    assert Slashes(0) == "";
    StripEdges(digits, 1, 0);
    assert Strip("/" + digits, '/') == digits by {
      assert Slashes(1) + digits + Slashes(0) == "/" + digits;
    }
    StripEdges(digits, 1, 1);
    assert Strip("/" + digits + "/", '/') == digits;
    ParseIntOfNatToString(n);
  }

  /**
   * The path of a URL that has a host is never empty: it is at least '/'.
   * For such a path the '/0' default never applies, and a URL that names no
   * database (path '/', or only slashes) makes `int` raise.
   */
  predicate HostUrlPath(path: string) {
    |path| > 0 && path[0] == '/'
  }

  lemma HostUrlPathNeverDefaults(path: string)
    requires HostUrlPath(path)
    ensures DbNumberAsWritten(path) == ParseInt(Strip(path, '/'))
    ensures AllSlashes(path) ==> DbNumberAsWritten(path) == None
  {
  }

  /** '/n', with any number of slashes around it, selects database n. */
  lemma DbNumberOfNumber(n: nat, lead: nat, trail: nat)
    ensures DbNumber(Slashes(lead) + NatToString(n) + Slashes(trail)) == Some(n)
  {
    StripEdges(NatToString(n), lead, trail);
    ParseIntOfNatToString(n);
  }

  /**
   * The corrected number differs from line 89 exactly on the non-empty
   * all-slash paths, where line 89 raises and the default applies.
   */
  lemma DbNumberDiffersIff(path: string)
    ensures DbNumber(path) != DbNumberAsWritten(path) <==> path != "" && AllSlashes(path)
  {
    StripEmptyIff(path, '/');
  }

  function Slashes(k: nat): (s: string)
    ensures |s| == k
  {
    if k == 0 then "" else "/" + Slashes(k - 1)
  }

  /** Stripping slashes from around a string with no slash at either end yields that string. */
  lemma StripEdges(s: string, lead: nat, trail: nat)
    requires s != [] && s[0] != '/' && s[|s| - 1] != '/'
    ensures Strip(Slashes(lead) + s + Slashes(trail), '/') == s
  {
    var u := s + Slashes(trail);
    calc {
      Strip(Slashes(lead) + s + Slashes(trail), '/');
      { assert Slashes(lead) + s + Slashes(trail) == Slashes(lead) + u; }
      Strip(Slashes(lead) + u, '/');
      TrimEnd(TrimStart(Slashes(lead) + u, '/'), '/');
      { TrimStartSlashes(u, lead); }
      TrimEnd(u, '/');
      { TrimEndSlashes(s, trail); }
      s;
    }
  }

  lemma {:induction false} TrimStartSlashes(s: string, lead: nat)
    requires s != [] && s[0] != '/'
    ensures TrimStart(Slashes(lead) + s, '/') == s
  {
    if lead > 0 {
      assert (Slashes(lead) + s)[1..] == Slashes(lead - 1) + s;
      TrimStartSlashes(s, lead - 1);
    }
  }

  lemma {:induction false} TrimEndSlashes(s: string, trail: nat)
    requires s != [] && s[|s| - 1] != '/'
    ensures TrimEnd(s + Slashes(trail), '/') == s
  {
    if trail > 0 {
      var t := s + Slashes(trail);
      SlashesSplit(trail);
      assert t == (s + Slashes(trail - 1)) + "/";
      assert t[|t| - 1] == '/';
      assert t[..|t| - 1] == s + Slashes(trail - 1);
      TrimEndSlashes(s, trail - 1);
    } else {
      assert s + Slashes(trail) == s;
    }
  }

  lemma {:induction false} SlashesSplit(k: nat)
    requires k > 0
    ensures Slashes(k) == Slashes(k - 1) + "/"
  {
    if k > 1 {
      SlashesSplit(k - 1);
    }
  }
}
