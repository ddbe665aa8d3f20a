/**
 * Node's POSIX `path.resolve`, which the proxy uses to normalise a request path, together with
 * `String.prototype.split("/")`. Only absolute resolutions are modelled: every call in the proxy
 * passes an absolute path, so the working directory is never consulted.
 */
module PosixPath {
  import opened Text

  predicate NoSlash(s: string)
  {
    forall i :: 0 <= i < |s| ==> s[i] != '/'
  }

  /** `s.split("/")`: the pieces between slashes; an empty string gives one empty piece. */
  function Split(s: string): (r: seq<string>)
    ensures |r| >= 1
  {
    if |s| == 0 then [""]
    else
      var rest := Split(s[1..]);
      if s[0] == '/' then [""] + rest else [[s[0]] + rest[0]] + rest[1..]
  }

  /** No piece holds a slash. */
  lemma {:induction false} SplitPieces(s: string)
    ensures forall i :: 0 <= i < |Split(s)| ==> NoSlash(Split(s)[i])
  {
    if |s| > 0 {
      SplitPieces(s[1..]);
      var rest := Split(s[1..]);
      if s[0] != '/' {
        assert NoSlash([s[0]] + rest[0]);
        assert forall i :: 1 <= i < |rest| ==> Split(s)[i] == rest[i];
      } else {
        assert forall i :: 1 <= i <= |rest| ==> Split(s)[i] == rest[i - 1];
      }
    }
  }

  /** A piece without a slash splits into itself. */
  lemma {:induction false} SplitNoSlash(s: string)
    requires NoSlash(s)
    ensures Split(s) == [s]
  {
    if |s| > 0 {
      SplitNoSlash(s[1..]);
      assert [s[0]] + s[1..] == s;
    }
  }

  /** Splitting a string that starts with the character `c`. */
  lemma SplitCons(c: char, t: string)
    ensures Split([c] + t) == if c == '/' then [""] + Split(t) else [[c] + Split(t)[0]] + Split(t)[1..]
  {
    assert ([c] + t)[0] == c && ([c] + t)[1..] == t;
  }

  /** Gluing a character to the first piece commutes with appending more pieces. */
  lemma GluePieces(c: char, ra: seq<string>, rb: seq<string>)
    requires |ra| > 0
    ensures [[c] + (ra + rb)[0]] + (ra + rb)[1..] == ([[c] + ra[0]] + ra[1..]) + rb
  {
    assert (ra + rb)[0] == ra[0];
    assert (ra + rb)[1..] == ra[1..] + rb;
  }

  /** Splitting at a slash splits each side separately. */
  lemma {:induction false} SplitAtSlash(a: string, b: string)
    ensures Split(a + "/" + b) == Split(a) + Split(b)
  {
    if |a| == 0 {
      assert a + "/" + b == ['/'] + b;
      SplitCons('/', b);
    } else {
      var c, t := a[0], a[1..] + "/" + b;
      assert a + "/" + b == [c] + t;
      assert a == [c] + a[1..];
      SplitCons(c, t);
      SplitCons(c, a[1..]);
      SplitAtSlash(a[1..], b);
      var ra, rb := Split(a[1..]), Split(b);
      if c != '/' {
        GluePieces(c, ra, rb);
      }
    }
  }

  /** Joining the pieces with `/` gives the string back. */
  lemma {:induction false} JoinSplit(s: string)
    ensures Join(Split(s), "/") == s
  {
    if |s| > 0 {
      JoinSplit(s[1..]);
      var rest := Split(s[1..]);
      if s[0] == '/' {
        assert ([""] + rest)[1..] == rest;
        assert "" + "/" + Join(rest, "/") == s;
      } else {
        var r := [[s[0]] + rest[0]] + rest[1..];
        assert r[1..] == rest[1..];
        if |rest| == 1 {
          assert s == [s[0]] + rest[0];
        } else {
          assert Join(rest, "/") == rest[0] + "/" + Join(rest[1..], "/");
          assert s == [s[0]] + (rest[0] + "/" + Join(rest[1..], "/"));
        }
      }
    }
  }

  /** Pieces without slashes, joined with `/`, split back into the same pieces. */
  lemma {:induction false} SplitJoin(xs: seq<string>)
    requires |xs| > 0 && forall i :: 0 <= i < |xs| ==> NoSlash(xs[i])
    ensures Split(Join(xs, "/")) == xs
  {
    SplitNoSlash(xs[0]);
    if |xs| > 1 {
      SplitJoin(xs[1..]);
      SplitAtSlash(xs[0], Join(xs[1..], "/"));
    }
  }

  /** Pieces each followed by `/` split into the pieces and a final empty one. */
  lemma {:induction false} SplitTerminated(xs: seq<string>)
    requires forall i :: 0 <= i < |xs| ==> NoSlash(xs[i])
    ensures Split(Terminated(xs, "/")) == xs + [""]
  {
    if |xs| > 0 {
      SplitNoSlash(xs[0]);
      SplitTerminated(xs[1..]);
      SplitAtSlash(xs[0], Terminated(xs[1..], "/"));
      assert [xs[0]] + (xs[1..] + [""]) == xs + [""];
    }
  }

  // ---------------------------------------------------------------------------
  // Normalisation

  /** A segment a normalised path may contain. */
  predicate IsCleanSegment(s: string)
  {
    s != "" && s != "." && s != ".." && NoSlash(s)
  }

  predicate AllClean(xs: seq<string>)
  {
    forall i :: 0 <= i < |xs| ==> IsCleanSegment(xs[i])
  }

  /** One segment of `normalizeString`: empty and `.` are skipped, `..` drops the last kept one. */
  function Step(kept: seq<string>, segment: string): seq<string>
  {
    if segment == "" || segment == "." then kept
    else if segment == ".." then (if |kept| == 0 then kept else kept[..|kept| - 1])
    else kept + [segment]
  }

  /** The segments kept after reading `segments` from left to right. */
  function Normalize(kept: seq<string>, segments: seq<string>): seq<string>
    decreases |segments|
  {
    if |segments| == 0 then kept else Normalize(Step(kept, segments[0]), segments[1..])
  }

  /** Normalising never keeps an empty, `.` or `..` segment, nor one with a slash. */
  lemma {:induction false} NormalizeClean(kept: seq<string>, segments: seq<string>)
    requires AllClean(kept) && forall i :: 0 <= i < |segments| ==> NoSlash(segments[i])
    ensures AllClean(Normalize(kept, segments))
    decreases |segments|
  {
    if |segments| > 0 {
      var next := Step(kept, segments[0]);
      assert AllClean(next) by {
        if segments[0] == ".." && |kept| > 0 {
          forall i | 0 <= i < |next| ensures IsCleanSegment(next[i]) { assert next[i] == kept[i]; }
        }
      }
      assert forall i :: 0 <= i < |segments| - 1 ==> segments[1..][i] == segments[i + 1];
      NormalizeClean(next, segments[1..]);
    }
  }

  lemma {:induction false} NormalizeAppend(kept: seq<string>, a: seq<string>, b: seq<string>)
    ensures Normalize(kept, a + b) == Normalize(Normalize(kept, a), b)
    decreases |a|
  {
    if |a| == 0 {
      assert a + b == b;
    } else {
      assert (a + b)[0] == a[0];
      assert (a + b)[1..] == a[1..] + b;
      NormalizeAppend(Step(kept, a[0]), a[1..], b);
    }
  }

  /** Clean segments are kept as they are. */
  lemma {:induction false} NormalizeOfClean(kept: seq<string>, xs: seq<string>)
    requires AllClean(xs)
    ensures Normalize(kept, xs) == kept + xs
    decreases |xs|
  {
    if |xs| > 0 {
      assert AllClean(xs[1..]) by {
        forall i | 0 <= i < |xs| - 1 ensures IsCleanSegment(xs[1..][i]) { assert xs[1..][i] == xs[i + 1]; }
      }
      NormalizeOfClean(kept + [xs[0]], xs[1..]);
      assert kept + [xs[0]] + xs[1..] == kept + xs;
    }
  }

  // ---------------------------------------------------------------------------
  // path.resolve

  predicate IsAbsolute(p: string) { |p| > 0 && p[0] == '/' }

  /** Some argument is absolute, so the working directory is never needed. */
  predicate HasAbsolute(args: seq<string>)
    decreases |args|
  {
    |args| > 0 && (IsAbsolute(args[|args| - 1]) || HasAbsolute(args[..|args| - 1]))
  }

  /**
   * The loop of `path.resolve`: from the last argument backwards, skipping empty ones, each is
   * put in front of what has been gathered, with a `/`, until an absolute one has been added.
   */
  function Gather(args: seq<string>, gathered: string): string
    decreases |args|
  {
    if |args| == 0 then gathered
    else
      var p := args[|args| - 1];
      if |p| == 0 then Gather(args[..|args| - 1], gathered)
      else if p[0] == '/' then p + "/" + gathered
      else Gather(args[..|args| - 1], p + "/" + gathered)
  }

  /** The segments of the resolved path. */
  function ResolvedSegments(args: seq<string>): seq<string>
  {
    Normalize([], Split(Gather(args, "")))
  }

  /** `path.posix.resolve(...args)` when some argument is absolute. */
  function Resolve(args: seq<string>): (r: string)
    requires HasAbsolute(args)
    ensures |r| > 0 && r[0] == '/'
  {
    "/" + Join(ResolvedSegments(args), "/")
  }

  /**
   * A resolved path is `/` or `/` followed by clean segments; it never ends in a slash, and its
   * segments are what splitting it after the leading slash gives.
   */
  lemma ResolvedShape(args: seq<string>)
    requires HasAbsolute(args)
    ensures var r, segs := Resolve(args), ResolvedSegments(args);
            AllClean(segs) &&
            (r == "/" <==> |segs| == 0) &&
            (|segs| > 0 ==> Split(r[1..]) == segs && r[|r| - 1] != '/')
  {
    var segs := ResolvedSegments(args);
    SplitPieces(Gather(args, ""));
    NormalizeClean([], Split(Gather(args, "")));
    if |segs| > 0 {
      SplitJoin(segs);
      JoinEndsWithLast(segs);
      assert segs[|segs| - 1][|segs[|segs| - 1]| - 1] != '/';
    } else {
      assert Resolve(args) == "/" + "";
    }
  }

  lemma {:induction false} JoinEndsWithLast(xs: seq<string>)
    requires |xs| > 0 && |xs[|xs| - 1]| > 0
    ensures var j := Join(xs, "/"); |j| > 0 && j[|j| - 1] == xs[|xs| - 1][|xs[|xs| - 1]| - 1]
  {
    if |xs| > 1 {
      assert xs[1..][|xs| - 2] == xs[|xs| - 1];
      JoinEndsWithLast(xs[1..]);
    }
  }

  /** Resolving one absolute path normalises its segments. */
  lemma ResolveOne(p: string)
    requires IsAbsolute(p)
    ensures ResolvedSegments([p]) == Normalize([], Split(p))
  {
    assert [p][..0] == [];
    assert Gather([p], "") == p + "/" + "";
    SplitAtSlash(p, "");
    NormalizeAppend([], Split(p), [""]);
  }

  /** Resolving a resolved path changes nothing. */
  lemma ResolveIdempotent(args: seq<string>)
    requires HasAbsolute(args)
    ensures HasAbsolute([Resolve(args)]) && Resolve([Resolve(args)]) == Resolve(args)
  {
    var r := Resolve(args);
    var segs := ResolvedSegments(args);
    assert [r][..0] == [];
    ResolvedShape(args);
    ResolveOne(r);
    assert r == "" + "/" + Join(segs, "/");
    SplitAtSlash("", Join(segs, "/"));
    if |segs| > 0 {
      SplitJoin(segs);
      assert Split(r) == [""] + segs;
      NormalizeAppend([], [""], segs);
      assert Normalize([], [""]) == [];
      NormalizeOfClean([], segs);
      assert [] + segs == segs;
      assert ResolvedSegments([r]) == segs;
    } else {
      assert Join(segs, "/") == "";
      assert Split(r) == ["", ""];
    }
  }

  /** Relative, non-empty arguments are each gathered with a following slash. */
  lemma {:induction false} GatherRelative(prefix: seq<string>, xs: seq<string>, gathered: string)
    requires forall i :: 0 <= i < |xs| ==> |xs[i]| > 0 && xs[i][0] != '/'
    ensures Gather(prefix + xs, gathered) == Gather(prefix, Terminated(xs, "/") + gathered)
    decreases |xs|
  {
    if |xs| > 0 {
      var n := |xs|;
      var init, last := xs[..n - 1], xs[n - 1];
      assert (prefix + xs)[..|prefix + xs| - 1] == prefix + init;
      assert (prefix + xs)[|prefix + xs| - 1] == last;
      GatherRelative(prefix, init, last + "/" + gathered);
      assert xs == init + [last];
      TerminatedAppend(init, [last], "/");
      assert Terminated([last], "/") == last + "/";
      assert Terminated(init, "/") + (last + "/" + gathered) == Terminated(xs, "/") + gathered;
    } else {
      assert prefix + xs == prefix;
      assert Terminated(xs, "/") + gathered == gathered;
    }
  }

  lemma SplitDoubleSlash(t: string)
    ensures Split("/" + "/" + t) == ["", ""] + Split(t)
  {
    assert ("/" + "/" + t)[1..] == "/" + t;
    assert ("/" + t)[1..] == t;
  }

  lemma GatherUnderRoot(segments: seq<string>)
    requires AllClean(segments)
    ensures Gather(["/"] + segments, "") == "/" + "/" + Terminated(segments, "/")
  {
    GatherRelative(["/"], segments, "");
    var t := Terminated(segments, "/");
    assert t + "" == t;
    assert ["/"][..0] == [];
  }

  /** `path.resolve("/", ...segments)` of clean segments joins them under the root. */
  lemma ResolveUnderRoot(segments: seq<string>)
    requires AllClean(segments)
    ensures HasAbsolute(["/"] + segments) && Resolve(["/"] + segments) == "/" + Join(segments, "/")
  {
    var args := ["/"] + segments;
    assert HasAbsolute(["/"]) by { assert ["/"][0] == "/"; }
    HasAbsoluteExtend(["/"], segments);
    GatherUnderRoot(segments);
    SplitDoubleSlash(Terminated(segments, "/"));
    SplitTerminated(segments);
    assert Split(Gather(args, "")) == (["", ""] + segments) + [""];
    NormalizeAppend([], ["", ""] + segments, [""]);
    NormalizeAppend([], ["", ""], segments);
    NormalizeOfClean([], segments);
    assert ResolvedSegments(args) == segments;
  }

  lemma {:induction false} HasAbsoluteExtend(prefix: seq<string>, xs: seq<string>)
    requires HasAbsolute(prefix)
    ensures HasAbsolute(prefix + xs)
    decreases |xs|
  {
    if |xs| > 0 {
      assert (prefix + xs)[..|prefix + xs| - 1] == prefix + xs[..|xs| - 1];
      HasAbsoluteExtend(prefix, xs[..|xs| - 1]);
    } else {
      assert prefix + xs == prefix;
    }
  }
}
