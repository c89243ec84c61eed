/** The bearer-token extraction of `verifyToken`:
    `req.headers.authorization.split("Bearer ")[1]`, with JavaScript's `split` on a
    string separator written out. */
module Bearer {
  import opened Common

  const Prefix: string := "Bearer "

  /** `pat` occurs in `s` starting at index `i`. */
  predicate OccursAt(s: string, pat: string, i: nat) {
    i + |pat| <= |s| && s[i..i + |pat|] == pat
  }

  predicate Contains(s: string, pat: string) {
    exists i: nat | i <= |s| :: OccursAt(s, pat, i)
  }

  /** The first occurrence of `pat` in `s` at or after `from`: where `split` finds its next
      separator. */
  function IndexOf(s: string, pat: string, from: nat): (r: Option<nat>)
    ensures r.Some? ==> from <= r.value && OccursAt(s, pat, r.value)
    ensures r.Some? ==> forall j :: from <= j < r.value ==> !OccursAt(s, pat, j)
    ensures r.None? ==> forall j: nat :: from <= j ==> !OccursAt(s, pat, j)
    decreases |s| - from
  {
    if |s| < from + |pat| then None
    else if OccursAt(s, pat, from) then Some(from)
    else IndexOf(s, pat, from + 1)
  }

  /** Element 1 of `header.split("Bearer ")`: the text after the first separator up to the
      next one or the end. None when there is no separator (element 1 is undefined) or the
      piece is empty (the `!token` test rejects it as well). */
  function BearerToken(header: string): (r: Option<string>)
    ensures !Contains(header, Prefix) ==> r.None?
    ensures r.Some? ==> r.value != [] && !Contains(r.value, Prefix)
    ensures r.Some? ==> Contains(header, Prefix + r.value)
  {
    match IndexOf(header, Prefix, 0)
    case None => None
    case Some(i) =>
      var start := i + |Prefix|;
      var stop := match IndexOf(header, Prefix, start) case None => |header| case Some(j) => j;
      var piece := header[start..stop];
      if piece == [] then None
      else
        assert !Contains(piece, Prefix) by {
          forall p: nat | OccursAt(piece, Prefix, p) ensures false {
            assert start <= stop <= |header|;
            forall k | p <= k < p + |Prefix| ensures piece[k] == header[start + k] { }
            assert header[start + p..start + p + |Prefix|] == piece[p..p + |Prefix|];
            assert OccursAt(header, Prefix, start + p);
          }
        }
        assert OccursAt(header, Prefix + piece, i) by {
          assert start <= stop <= |header|;
          assert header[i..stop] == header[i..start] + header[start..stop];
        }
        Some(piece)
  }

  /** Where the first separator sits, `IndexOf` finds it. */
  lemma IndexOfFindsFirst(s: string, pat: string, from: nat, k: nat)
    requires from <= k && OccursAt(s, pat, k)
    requires forall j :: from <= j < k ==> !OccursAt(s, pat, j)
    ensures IndexOf(s, pat, from) == Some(k)
  {
  }

  /** With the first separator at `i` and the next one (or the end of the header) at `stop`,
      the token is exactly the text between them, and there is one iff that text is not
      empty. */
  lemma BearerTokenIsSecondPiece(header: string, i: nat, stop: nat)
    requires OccursAt(header, Prefix, i) && forall j :: 0 <= j < i ==> !OccursAt(header, Prefix, j)
    requires i + |Prefix| <= stop <= |header|
    requires stop == |header| || OccursAt(header, Prefix, stop)
    requires forall j :: i + |Prefix| <= j < stop ==> !OccursAt(header, Prefix, j)
    ensures BearerToken(header).Some? <==> i + |Prefix| < stop
    ensures BearerToken(header).Some? ==> BearerToken(header).value == header[i + |Prefix|..stop]
  {
    IndexOfFindsFirst(header, Prefix, 0, i);
    var start := i + |Prefix|;
    if stop < |header| {
      IndexOfFindsFirst(header, Prefix, start, stop);
    }
  }

  /** A header `"Bearer " + t`, with `t` non-empty and free of `"Bearer "`, yields `t`. */
  lemma PrefixedHeaderYieldsToken(t: string)
    requires t != [] && !Contains(t, Prefix)
    ensures BearerToken(Prefix + t) == Some(t)
  {
    var h := Prefix + t;
    assert OccursAt(h, Prefix, 0);
    forall j: nat | |Prefix| <= j ensures !OccursAt(h, Prefix, j) {
      if OccursAt(h, Prefix, j) {
        assert t[j - |Prefix|..j - |Prefix| + |Prefix|] == h[j..j + |Prefix|];
        assert OccursAt(t, Prefix, j - |Prefix|);
      }
    }
    assert IndexOf(h, Prefix, |Prefix|).None?;
    assert h[|Prefix|..|h|] == t;
  }

  /** `"Bearer "` followed by nothing yields no token. */
  lemma BareSchemeYieldsNothing()
    ensures BearerToken(Prefix) == None
  {
    assert OccursAt(Prefix, Prefix, 0);
  }
}
