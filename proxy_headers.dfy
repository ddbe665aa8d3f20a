/**
 * The header rules of the proxy's request handler (`src/index.ts`): the required-header gate,
 * the first pass that drops excluded headers, and the second pass in which a header `$X`
 * overrides `X`. Header names arrive lowercased; the lookups here are exact.
 */
module ProxyHeaders {
  import opened Wrappers
  import opened Text
  import opened JsObject

  /** A value of `IncomingHttpHeaders`: one string, or a list for a repeated header. */
  datatype HeaderValue = Single(s: string) | Multiple(items: seq<string>)

  type Headers = Entries<HeaderValue>

  /**
   * A configured required value. Only a string can ever be strictly equal to a header value; any
   * other JSON value (number, boolean, null, object, array) never is.
   */
  datatype RequiredValue = RequiredString(s: string) | RequiredOther

  // ---------------------------------------------------------------------------
  // Required headers

  /** `headers[name] !== required`. */
  predicate Mismatch(headers: Headers, name: string, required: RequiredValue)
  {
    !(required.RequiredString? && Lookup(headers, name) == Some(Single(required.s)))
  }

  /** Every required header is present under its exact name with exactly the configured string. */
  predicate RequiredHeadersMatch(headers: Headers, required: Entries<RequiredValue>)
  {
    forall i :: 0 <= i < |required| ==> !Mismatch(headers, required[i].0, required[i].1)
  }

  /** The gate loop: stops at the first required header that does not match. */
  method CheckRequiredHeaders(headers: Headers, required: Entries<RequiredValue>) returns (ok: bool)
    ensures ok <==> RequiredHeadersMatch(headers, required)
  {
    var i := 0;
    while i < |required|
      invariant 0 <= i <= |required|
      invariant forall j :: 0 <= j < i ==> !Mismatch(headers, required[j].0, required[j].1)
    {
      var (requiredHeaderName, requiredHeaderValue) := required[i];
      if Mismatch(headers, requiredHeaderName, requiredHeaderValue) {
        return false;
      }
      i := i + 1;
    }
    return true;
  }

  // ---------------------------------------------------------------------------
  // First pass: excluded headers

  /** `[...names].map(value => value.toLowerCase())`, for ASCII letters. */
  function IgnoredHeaderNames(configured: seq<string>): (r: seq<string>)
    ensures |r| == |configured| && forall i :: 0 <= i < |r| ==> r[i] == LowerAscii(configured[i])
  {
    if |configured| == 0 then [] else [LowerAscii(configured[0])] + IgnoredHeaderNames(configured[1..])
  }

  /** The headers whose name is not excluded, in their order. */
  function KeepAllowed(headers: Headers, ignored: seq<string>): (r: Headers)
    ensures forall k :: Lookup(r, k) == if k in ignored then None else Lookup(headers, k)
    ensures DistinctKeys(headers) ==> DistinctKeys(r)
  {
    if |headers| == 0 then []
    else
      var rest := KeepAllowed(headers[1..], ignored);
      if headers[0].0 in ignored then rest else [headers[0]] + rest
  }

  /** The kept headers are exactly the entries whose name is not excluded, values unchanged. */
  lemma {:induction false} KeepAllowedMembers(headers: Headers, ignored: seq<string>)
    ensures forall p :: p in KeepAllowed(headers, ignored) <==> p in headers && p.0 !in ignored
  {
    if |headers| > 0 {
      KeepAllowedMembers(headers[1..], ignored);
      assert forall p :: p in headers <==> p == headers[0] || p in headers[1..];
    }
  }

  lemma {:induction false} KeepAllowedExtend(headers: Headers, ignored: seq<string>, more: Headers)
    ensures KeepAllowed(headers + more, ignored) == KeepAllowed(headers, ignored) + KeepAllowed(more, ignored)
  {
    if |headers| == 0 {
      assert headers + more == more;
    } else {
      assert (headers + more)[0] == headers[0];
      assert (headers + more)[1..] == headers[1..] + more;
      KeepAllowedExtend(headers[1..], ignored, more);
    }
  }

  /** One more header: an allowed name is new to what was kept, so setting it appends it. */
  lemma KeepAllowedStep(headers: Headers, ignored: seq<string>, i: nat)
    requires DistinctKeys(headers) && i < |headers|
    ensures KeepAllowed(headers[..i + 1], ignored)
         == if headers[i].0 in ignored then KeepAllowed(headers[..i], ignored)
            else Set(KeepAllowed(headers[..i], ignored), headers[i].0, headers[i].1)
  {
    var kept := KeepAllowed(headers[..i], ignored);
    KeepAllowedExtend(headers[..i], ignored, [headers[i]]);
    assert headers[..i + 1] == headers[..i] + [headers[i]];
    assert [headers[i]][1..] == [];
    if headers[i].0 !in ignored {
      LookupEntry(headers, i);
      LookupPrefix(headers, i, headers[i].0);
      assert Lookup(kept, headers[i].0) == None;
    }
  }

  /** The first loop: each header whose name is not excluded is copied into a new object. */
  method ExcludeHeaders(headers: Headers, ignored: seq<string>) returns (requestHeaders: Headers)
    requires DistinctKeys(headers)
    ensures requestHeaders == KeepAllowed(headers, ignored)
  {
    requestHeaders := [];
    var i := 0;
    while i < |headers|
      invariant 0 <= i <= |headers|
      invariant requestHeaders == KeepAllowed(headers[..i], ignored)
    {
      var (headerName, headerValue) := headers[i];
      KeepAllowedStep(headers, ignored, i);
      if headerName !in ignored {
        requestHeaders := Set(requestHeaders, headerName, headerValue);
      }
      i := i + 1;
    }
    assert headers[..i] == headers;
  }

  // ---------------------------------------------------------------------------
  // Second pass: `$` overrides

  /** A name that overrides another: `$` followed by at least one character. */
  predicate IsOverrideName(name: string)
  {
    |name| >= 2 && name[0] == '$'
  }

  /** A name beginning with `$$`, whose override target is itself an override name. */
  predicate IsDoubleDollar(name: string)
  {
    |name| >= 2 && name[0] == '$' && name[1] == '$'
  }

  predicate NoDoubleDollar(headers: Headers)
  {
    forall j :: 0 <= j < |headers| ==> !IsDoubleDollar(headers[j].0)
  }

  /** One snapshot entry: `$X` sets `X` to its value, then is deleted; other names do nothing. */
  function OverrideStep(current: Headers, entry: (string, HeaderValue)): Headers
  {
    if IsOverrideName(entry.0) then Delete(Set(current, entry.0[1..], entry.1), entry.0) else current
  }

  /** The entries of `snapshot` applied in order to `current`. */
  function ApplyOverrides(current: Headers, snapshot: Headers): Headers
    decreases |snapshot|
  {
    if |snapshot| == 0 then current else ApplyOverrides(OverrideStep(current, snapshot[0]), snapshot[1..])
  }

  /**
   * The second pass: the loop runs over a snapshot of the entries while the object changes; an
   * object stays an object.
   */
  function Overridden(requestHeaders: Headers): (r: Headers)
    ensures DistinctKeys(requestHeaders) ==> DistinctKeys(r)
  {
    if DistinctKeys(requestHeaders) then
      OverridesKeepDistinct(requestHeaders, requestHeaders);
      ApplyOverrides(requestHeaders, requestHeaders)
    else ApplyOverrides(requestHeaders, requestHeaders)
  }

  /** The second loop: iterates the entries taken before it starts, updating the object. */
  method OverrideHeaders(requestHeaders: Headers) returns (result: Headers)
    ensures result == Overridden(requestHeaders)
  {
    var snapshot := requestHeaders;
    result := requestHeaders;
    var i := 0;
    assert snapshot[0..] == snapshot;
    while i < |snapshot|
      invariant 0 <= i <= |snapshot|
      invariant ApplyOverrides(result, snapshot[i..]) == Overridden(requestHeaders)
    {
      var (headerName, headerValue) := snapshot[i];
      assert snapshot[i..][1..] == snapshot[i + 1..];
      if |headerName| >= 2 && headerName[0] == '$' {
        result := Set(result, headerName[1..], headerValue);
        result := Delete(result, headerName);
      }
      i := i + 1;
    }
  }

  /** What a key holds once the first `i` snapshot entries have been applied. */
  function Expected(snapshot: Headers, i: nat, k: string): Option<HeaderValue>
  {
    if |k| >= 1 && PosOf(snapshot, "$" + k) < i then Lookup(snapshot, "$" + k)
    else if IsOverrideName(k) && PosOf(snapshot, k) < i then None
    else Lookup(snapshot, k)
  }

  ghost predicate OverridesSoFar(snapshot: Headers, i: nat, current: Headers)
  {
    DistinctKeys(current) && forall k :: Lookup(current, k) == Expected(snapshot, i, k)
  }

  /** Without `$$` names, no header is named `$` followed by an override name. */
  lemma NoDoubleDollarTarget(snapshot: Headers, n: string)
    requires NoDoubleDollar(snapshot) && IsOverrideName(n)
    ensures Lookup(snapshot, "$" + n) == None && PosOf(snapshot, "$" + n) == |snapshot|
  {
    assert IsDoubleDollar("$" + n);
    assert forall j :: 0 <= j < |snapshot| ==> snapshot[j].0 != "$" + n;
  }

  /** Applying an override entry `$m` keeps the expectation for key `k`. */
  lemma OverrideEntryAt(snapshot: Headers, i: nat, current: Headers, k: string)
    requires DistinctKeys(snapshot) && NoDoubleDollar(snapshot) && i < |snapshot|
    requires IsOverrideName(snapshot[i].0)
    requires OverridesSoFar(snapshot, i, current)
    ensures Lookup(OverrideStep(current, snapshot[i]), k) == Expected(snapshot, i + 1, k)
  {
    var (n, v) := snapshot[i];
    LookupEntry(snapshot, i);
    var m := n[1..];
    assert "$" + m == n;
    var updated := Set(current, m, v);
    assert OverrideStep(current, snapshot[i]) == Delete(updated, n);
    if k == m {
      assert Lookup(Delete(updated, n), k) == Some(v);
    } else if k == n {
      NoDoubleDollarTarget(snapshot, n);
      assert Lookup(Delete(updated, n), k) == None;
    } else {
      assert "$" + k != n;
      assert Lookup(Delete(updated, n), k) == Lookup(current, k);
    }
  }

  /** Applying an entry that is no override keeps the expectation for key `k`. */
  lemma PlainEntryAt(snapshot: Headers, i: nat, current: Headers, k: string)
    requires DistinctKeys(snapshot) && i < |snapshot|
    requires !IsOverrideName(snapshot[i].0)
    requires OverridesSoFar(snapshot, i, current)
    ensures Lookup(OverrideStep(current, snapshot[i]), k) == Expected(snapshot, i + 1, k)
  {
    LookupEntry(snapshot, i);
    assert PosOf(snapshot, k) == i ==> k == snapshot[i].0;
    assert PosOf(snapshot, "$" + k) == i ==> "$" + k == snapshot[i].0;
  }

  lemma OverrideStepKeeps(snapshot: Headers, i: nat, current: Headers)
    requires DistinctKeys(snapshot) && NoDoubleDollar(snapshot) && i < |snapshot|
    requires OverridesSoFar(snapshot, i, current)
    ensures OverridesSoFar(snapshot, i + 1, OverrideStep(current, snapshot[i]))
  {
    var next := OverrideStep(current, snapshot[i]);
    forall k ensures Lookup(next, k) == Expected(snapshot, i + 1, k) {
      if IsOverrideName(snapshot[i].0) {
        OverrideEntryAt(snapshot, i, current, k);
      } else {
        PlainEntryAt(snapshot, i, current, k);
      }
    }
  }

  lemma {:induction false} OverridesFrom(snapshot: Headers, i: nat, current: Headers)
    requires DistinctKeys(snapshot) && NoDoubleDollar(snapshot) && i <= |snapshot|
    requires OverridesSoFar(snapshot, i, current)
    ensures OverridesSoFar(snapshot, |snapshot|, ApplyOverrides(current, snapshot[i..]))
    decreases |snapshot| - i
  {
    if i < |snapshot| {
      OverrideStepKeeps(snapshot, i, current);
      assert snapshot[i..][1..] == snapshot[i + 1..];
      OverridesFrom(snapshot, i + 1, OverrideStep(current, snapshot[i]));
    } else {
      assert snapshot[i..] == [];
    }
  }

  /**
   * Without `$$` names, the second pass gives each `X` the value of `$X` when there is one,
   * removes every override name, and leaves every other header as it was.
   */
  lemma OverriddenLookup(requestHeaders: Headers, k: string)
    requires DistinctKeys(requestHeaders) && NoDoubleDollar(requestHeaders)
    ensures Lookup(Overridden(requestHeaders), k)
         == if |k| >= 1 && Lookup(requestHeaders, "$" + k).Some? then Lookup(requestHeaders, "$" + k)
            else if IsOverrideName(k) then None
            else Lookup(requestHeaders, k)
  {
    assert OverridesSoFar(requestHeaders, 0, requestHeaders);
    assert requestHeaders[0..] == requestHeaders;
    OverridesFrom(requestHeaders, 0, requestHeaders);
  }

  /** Without `$$` names, no override name survives the second pass. */
  lemma NoOverrideNameRemains(requestHeaders: Headers, k: string)
    requires DistinctKeys(requestHeaders) && NoDoubleDollar(requestHeaders)
    requires IsOverrideName(k)
    ensures Lookup(Overridden(requestHeaders), k) == None
  {
    OverriddenLookup(requestHeaders, k);
    NoDoubleDollarTarget(requestHeaders, k);
  }

  /** The second pass yields an object again. */
  lemma {:induction false} OverridesKeepDistinct(current: Headers, snapshot: Headers)
    requires DistinctKeys(current)
    ensures DistinctKeys(ApplyOverrides(current, snapshot))
    decreases |snapshot|
  {
    if |snapshot| > 0 {
      OverridesKeepDistinct(OverrideStep(current, snapshot[0]), snapshot[1..]);
    }
  }

  /** Both passes: the headers forwarded upstream, an object when the request's headers are one. */
  function ForwardedHeaders(headers: Headers, ignored: seq<string>): (r: Headers)
    ensures DistinctKeys(headers) ==> DistinctKeys(r)
  {
    Overridden(KeepAllowed(headers, ignored))
  }

  lemma KeepAllowedNoDoubleDollar(headers: Headers, ignored: seq<string>)
    requires NoDoubleDollar(headers)
    ensures NoDoubleDollar(KeepAllowed(headers, ignored))
  {
    var r := KeepAllowed(headers, ignored);
    KeepAllowedMembers(headers, ignored);
    forall j | 0 <= j < |r| ensures !IsDoubleDollar(r[j].0) {
      assert r[j] in headers;
      var q :| 0 <= q < |headers| && headers[q] == r[j];
    }
  }

  /**
   * What is forwarded, without `$$` names: an excluded `$X` never overrides anything, while a
   * surviving `$X` sets `X` even when `X` itself is excluded; override names and excluded names
   * are gone, every other header is passed on unchanged.
   */
  lemma ForwardedLookup(headers: Headers, ignored: seq<string>, k: string)
    requires DistinctKeys(headers) && NoDoubleDollar(headers)
    ensures Lookup(ForwardedHeaders(headers, ignored), k)
         == if |k| >= 1 && "$" + k !in ignored && Lookup(headers, "$" + k).Some? then Lookup(headers, "$" + k)
            else if IsOverrideName(k) || k in ignored then None
            else Lookup(headers, k)
  {
    KeepAllowedNoDoubleDollar(headers, ignored);
    OverriddenLookup(KeepAllowed(headers, ignored), k);
  }

  /**
   * With `$$` names the order of the snapshot matters: `$$a` after `$a` sets `$a` once `$a` has
   * already been processed, so an override name is left in the result.
   */
  lemma DoubleDollarLeavesOverrideName(one: HeaderValue, two: HeaderValue)
    ensures Overridden([("$a", one), ("$$a", two)]) == [("a", one), ("$a", two)]
    ensures Overridden([("$$a", two), ("$a", one)]) == [("a", one)]
  {
    var h1 := [("$a", one), ("$$a", two)];
    assert "$a"[1..] == "a" && "$$a"[1..] == "$a";
    assert IsOverrideName("$a") && IsOverrideName("$$a");
    assert |"$a"| != |"a"| && |"$$a"| != |"a"| && |"$$a"| != |"$a"|;
    assert h1[1..] == [("$$a", two)] && |h1[1..][1..]| == 0;
    assert Lookup(h1[1..][1..], "a") == None;
    assert Lookup(h1[1..], "a") == None;
    assert Lookup(h1, "a") == None;
    var u1 := Set(h1, "a", one);
    assert u1 == h1 + [("a", one)];
    var s1 := Delete(u1, "$a");
    assert s1 == [("$$a", two), ("a", one)];
    assert s1[1..] == [("a", one)];
    assert Lookup(s1[1..][1..], "$a") == None;
    assert Lookup(s1[1..], "$a") == None;
    assert Lookup(s1, "$a") == None;
    var u2 := Set(s1, "$a", two);
    assert u2 == s1 + [("$a", two)];
    var s2 := Delete(u2, "$$a");
    assert s2 == [("a", one), ("$a", two)];
    assert ApplyOverrides(s2, []) == s2;
    assert Overridden(h1) == ApplyOverrides(s1, h1[1..]);
    assert ApplyOverrides(s1, h1[1..]) == ApplyOverrides(s2, h1[1..][1..]);
    assert h1[1..][1..] == [];
    var h2 := [("$$a", two), ("$a", one)];
    var w1 := Set(h2, "$a", two);
    assert w1 == [("$$a", two), ("$a", two)];
    var t1 := Delete(w1, "$$a");
    assert t1 == [("$a", two)];
    assert Lookup(t1, "a") == None;
    var w2 := Set(t1, "a", one);
    assert w2 == t1 + [("a", one)];
    var t2 := Delete(w2, "$a");
    assert t2 == [("a", one)];
    assert ApplyOverrides(t2, []) == t2;
    assert Overridden(h2) == ApplyOverrides(t1, h2[1..]);
    assert ApplyOverrides(t1, h2[1..]) == ApplyOverrides(t2, h2[1..][1..]);
    assert h2[1..][1..] == [];
  }
}
