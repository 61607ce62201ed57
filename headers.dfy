/**
 * Outbound header construction (gateway.py lines 23-25). Headers form an
 * ordered multi-dictionary of (name, value) entries whose names compare
 * case-insensitively. The inbound collection is read-only; the gateway takes
 * a mutable copy and assigns `Host` and `Remote-User` on it.
 */
module Headers {
  import opened Wrappers
  import opened Text
  import opened Urls

  type Header = (string, string)

  const HOST := "Host"
  const REMOTE_USER := "Remote-User"

  /** The entries named `name`, in order. */
  function Matching(hs: seq<Header>, name: string): seq<Header> {
    if hs == [] then []
    else (if SameName(hs[0].0, name) then [hs[0]] else []) + Matching(hs[1..], name)
  }

  /** The entries not named `name`, in order. */
  function Without(hs: seq<Header>, name: string): seq<Header> {
    if hs == [] then []
    else (if SameName(hs[0].0, name) then [] else [hs[0]]) + Without(hs[1..], name)
  }

  /**
   * Case-insensitive multi-dictionary assignment `d[name] = value` on the
   * entries from some point on: the first entry named `name` becomes
   * (name, value), every later one is dropped, and when there is none the
   * entry is appended. `replaced` records that the first match has already
   * been seen, so that the entry is not added twice.
   */
  function AssignFrom(hs: seq<Header>, name: string, value: string, replaced: bool): (r: seq<Header>)
    ensures Matching(r, name) == if replaced then [] else [(name, value)]
    ensures Without(r, name) == Without(hs, name)
  {
    if hs == [] then
      (if replaced then [] else [(name, value)])
    else
      var first := SameName(hs[0].0, name);
      var head := if first then (if replaced then [] else [(name, value)]) else [hs[0]];
      var rest := AssignFrom(hs[1..], name, value, first || replaced);
      MatchingAppend(head, rest, name);
      WithoutAppend(head, rest, name);
      head + rest
  }

  /**
   * `d[name] = value` on a case-insensitive multi-dictionary: afterwards
   * exactly one entry carries the name, with the new value, whatever entries
   * of that name there were before; every entry of another name is kept,
   * unchanged and in order.
   */
  function Assign(hs: seq<Header>, name: string, value: string): (r: seq<Header>)
    ensures Matching(r, name) == [(name, value)]
    ensures Without(r, name) == Without(hs, name)
  {
    AssignFrom(hs, name, value, false)
  }

  lemma {:induction false} AssignFromOther(hs: seq<Header>, name: string, value: string, replaced: bool, other: string)
    requires !SameName(other, name)
    ensures Matching(AssignFrom(hs, name, value, replaced), other) == Matching(hs, other)
  {
    if hs != [] {
      var head := if SameName(hs[0].0, name) then (if replaced then [] else [(name, value)]) else [hs[0]];
      var rest := AssignFrom(hs[1..], name, value, SameName(hs[0].0, name) || replaced);
      AssignFromOther(hs[1..], name, value, SameName(hs[0].0, name) || replaced, other);
      MatchingAppend(head, rest, other);
    }
  }

  /** `d[name] = value` does not touch the entries of any other name. */
  lemma AssignKeepsOtherName(hs: seq<Header>, name: string, value: string, other: string)
    requires !SameName(other, name)
    ensures Matching(Assign(hs, name, value), other) == Matching(hs, other)
  {
    AssignFromOther(hs, name, value, false, other);
  }

  /** When no entry had the name, the new entry goes at the end. */
  lemma {:induction false} AssignAppendsWhenAbsent(hs: seq<Header>, name: string, value: string)
    requires Matching(hs, name) == []
    ensures Assign(hs, name, value) == hs + [(name, value)]
  {
    if hs != [] {
      assert !SameName(hs[0].0, name);
      AssignAppendsWhenAbsent(hs[1..], name, value);
      assert hs == [hs[0]] + hs[1..];
    }
  }

  /** Lookup is case-insensitive: every spelling of a name selects the same entries. */
  lemma {:induction false} MatchingAnySpelling(hs: seq<Header>, a: string, b: string)
    requires SameName(a, b)
    ensures Matching(hs, a) == Matching(hs, b)
    ensures Without(hs, a) == Without(hs, b)
  {
    if hs != [] {
      MatchingAnySpelling(hs[1..], a, b);
    }
  }

  lemma {:induction false} WithoutCommutes(hs: seq<Header>, a: string, b: string)
    ensures Without(Without(hs, a), b) == Without(Without(hs, b), a)
  {
    if hs != [] {
      WithoutCommutes(hs[1..], a, b);
      var h := hs[0];
      assert Without(Without(hs, a), b)
        == Without(if SameName(h.0, a) then [] else [h], b) + Without(Without(hs[1..], a), b)
      by {
        WithoutAppend(if SameName(h.0, a) then [] else [h], Without(hs[1..], a), b);
      }
      assert Without(Without(hs, b), a)
        == Without(if SameName(h.0, b) then [] else [h], a) + Without(Without(hs[1..], b), a)
      by {
        WithoutAppend(if SameName(h.0, b) then [] else [h], Without(hs[1..], b), a);
      }
    }
  }

  lemma {:induction false} WithoutAppend(xs: seq<Header>, ys: seq<Header>, name: string)
    ensures Without(xs + ys, name) == Without(xs, name) + Without(ys, name)
  {
    if xs == [] {
      assert xs + ys == ys;
    } else {
      var head := if SameName(xs[0].0, name) then [] else [xs[0]];
      assert (xs + ys)[0] == xs[0] && (xs + ys)[1..] == xs[1..] + ys;
      calc {
        Without(xs + ys, name);
        head + Without(xs[1..] + ys, name);
        { WithoutAppend(xs[1..], ys, name); }
        head + (Without(xs[1..], name) + Without(ys, name));
      }
    }
  }

  lemma {:induction false} MatchingAppend(xs: seq<Header>, ys: seq<Header>, name: string)
    ensures Matching(xs + ys, name) == Matching(xs, name) + Matching(ys, name)
  {
    if xs == [] {
      assert xs + ys == ys;
    } else {
      var head := if SameName(xs[0].0, name) then [xs[0]] else [];
      assert (xs + ys)[0] == xs[0] && (xs + ys)[1..] == xs[1..] + ys;
      calc {
        Matching(xs + ys, name);
        head + Matching(xs[1..] + ys, name);
        { MatchingAppend(xs[1..], ys, name); }
        head + (Matching(xs[1..], name) + Matching(ys, name));
      }
    }
  }

  /**
   * The `Host` value the gateway sends: the backend host, a colon, and the
   * backend port in canonical decimal, which reads back as the port.
   */
  function HostValue(backend: Url): (v: string)
    ensures |v| > |backend.host| + 1
    ensures v[..|backend.host|] == backend.host && v[|backend.host|] == ':'
    ensures v[|backend.host| + 1..] == NatToString(backend.port)
    ensures ParseInt(v[|backend.host| + 1..]) == Some(backend.port)
  {
    var v := backend.host + ":" + NatToString(backend.port);
    assert v[|backend.host| + 1..] == NatToString(backend.port);
    ParseIntOfNatToString(backend.port);
    v
  }

  /**
   * The outbound headers: a copy of the inbound ones with `Host` and then
   * `Remote-User` assigned. Neither header can be smuggled through by the
   * client: there is exactly one of each, carrying the backend's authority
   * and the session's user, and every other inbound header is forwarded
   * unchanged and in order.
   */
  function OutboundHeaders(inbound: seq<Header>, backend: Url, user: string): (out: seq<Header>)
    ensures Matching(out, HOST) == [(HOST, HostValue(backend))]
    ensures Matching(out, REMOTE_USER) == [(REMOTE_USER, user)]
    ensures Without(Without(out, HOST), REMOTE_USER) == Without(Without(inbound, HOST), REMOTE_USER)
  {
    var withHost := Assign(inbound, HOST, HostValue(backend));
    var out := Assign(withHost, REMOTE_USER, user);
    assert !SameName(HOST, REMOTE_USER) by {
      assert |Lower(HOST)| != |Lower(REMOTE_USER)|;
    }
    AssignKeepsOtherName(withHost, REMOTE_USER, user, HOST);
    calc {
      Without(Without(out, HOST), REMOTE_USER);
      { WithoutCommutes(out, HOST, REMOTE_USER); }
      Without(Without(out, REMOTE_USER), HOST);
      Without(Without(withHost, REMOTE_USER), HOST);
      { WithoutCommutes(withHost, REMOTE_USER, HOST); }
      Without(Without(withHost, HOST), REMOTE_USER);
      Without(Without(inbound, HOST), REMOTE_USER);
    }
    out
  }

  /** A mutable case-insensitive multi-dictionary of headers. */
  class HeaderDict {
    var items: seq<Header>

    /** Copying the read-only inbound headers: a new dictionary holding the same entries. */
    constructor Copy(source: seq<Header>)
      ensures items == source
    {
      items := source;
    }

    /** `d[name] = value`. */
    method Set(name: string, value: string)
      modifies this
      ensures items == Assign(old(items), name, value)
    {
      items := Assign(items, name, value);
    }
  }

  /**
   * Lines 23-25: copy the inbound headers, then overwrite `Host` and
   * `Remote-User`. The inbound headers are a value, so they cannot change.
   */
  method BuildOutboundHeaders(inbound: seq<Header>, backend: Url, user: string) returns (headers: HeaderDict)
    ensures fresh(headers)
    ensures headers.items == OutboundHeaders(inbound, backend, user)
  {
    headers := new HeaderDict.Copy(inbound);
    headers.Set(HOST, HostValue(backend));
    headers.Set(REMOTE_USER, user);
  }
}
