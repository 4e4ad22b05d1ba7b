/** Hierarchical cache keys (internal/cache/cache.go:75-86) and the invalidation handlers that delete by them
    (internal/cache/invalidator.go:33-58). */
module CacheKeys {
  import opened TimedMaps
  import opened MemoryCaches

  /** A part as the documentation intends it: not empty, and free of the separator. */
  predicate Plain(part: string) { part != "" && ':' !in part }

  predicate AllPlain(parts: seq<string>) { forall part <- parts :: Plain(part) }

  function TrimLeft(s: string): string {
    if s != "" && s[0] == ':' then TrimLeft(s[1..]) else s
  }

  function TrimRight(s: string): string {
    if s != "" && s[|s| - 1] == ':' then TrimRight(s[..|s| - 1]) else s
  }

  function Trim(s: string): string { TrimRight(TrimLeft(s)) }

  function Join(parts: seq<string>): string {
    if parts == [] then ""
    else if |parts| == 1 then parts[0]
    else parts[0] + ":" + Join(parts[1..])
  }

  function Kept(parts: seq<string>): seq<string> {
    if parts == [] then []
    else
      var front, last := Kept(parts[..|parts| - 1]), parts[|parts| - 1];
      if last == "" then front else front + [Trim(last)]
  }

  function KeyOf(parts: seq<string>): string { Join(Kept(parts)) }

  method Key(parts: seq<string>) returns (key: string)
    ensures key == KeyOf(parts)
  {
    var filtered: seq<string> := [];
    for i := 0 to |parts|
      invariant filtered == Kept(parts[..i])
    {
      assert parts[..i + 1][..i] == parts[..i];
      if parts[i] == "" {
        continue;
      }
      filtered := filtered + [Trim(parts[i])];
    }
    assert parts[..|parts|] == parts;
    return Join(filtered);
  }

  // ---------------------------------------------------------------- splitting is the inverse

  function SplitAtColons(s: string): (parts: seq<string>)
    ensures parts != []
  {
    if s == "" then [""]
    else
      var rest := SplitAtColons(s[1..]);
      if s[0] == ':' then [""] + rest else [[s[0]] + rest[0]] + rest[1..]
  }

  function Split(key: string): seq<string> { if key == "" then [] else SplitAtColons(key) }

  lemma {:induction false} SplitHead(part: string, rest: string)
    requires ':' !in part
    ensures SplitAtColons(part) == [part]
    ensures SplitAtColons(part + ":" + rest) == [part] + SplitAtColons(rest)
  {
    if part == "" {
      assert "" + ":" + rest == ":" + rest;
      assert (":" + rest)[1..] == rest;
    } else {
      SplitHead(part[1..], rest);
      assert (part + ":" + rest)[1..] == part[1..] + ":" + rest;
      assert [part[0]] + part[1..] == part;
    }
  }

  lemma {:induction false} SplitJoin(parts: seq<string>)
    requires parts != [] && forall part <- parts :: ':' !in part
    ensures SplitAtColons(Join(parts)) == parts
  {
    if |parts| == 1 {
      SplitHead(parts[0], "");
    } else {
      SplitHead(parts[0], Join(parts[1..]));
      SplitJoin(parts[1..]);
    }
  }

  lemma {:induction false} PlainPartsKept(parts: seq<string>)
    requires AllPlain(parts)
    ensures Kept(parts) == parts
  {
    if parts != [] {
      PlainPartsKept(parts[..|parts| - 1]);
      var last := parts[|parts| - 1];
      assert last in parts && last[0] in last && last[|last| - 1] in last;
    }
  }

  /** On plain parts a key can be taken apart again, so different parts have different keys. */
  lemma SplitUndoesKey(parts: seq<string>)
    requires AllPlain(parts)
    ensures Split(KeyOf(parts)) == parts
  {
    PlainPartsKept(parts);
    if parts != [] {
      SplitJoin(parts);
      assert parts[0] in parts;
    }
  }

  lemma KeyInjective(ps: seq<string>, qs: seq<string>)
    requires AllPlain(ps) && AllPlain(qs)
    ensures KeyOf(ps) == KeyOf(qs) <==> ps == qs
  {
    SplitUndoesKey(ps);
    SplitUndoesKey(qs);
  }

  /** The i-th part with separators put around it. */
  ghost predicate PaddedBy(padded: seq<string>, parts: seq<string>) {
    |padded| == |parts| && forall i | 0 <= i < |parts| :: IsPadded(padded[i], parts[i])
  }

  ghost predicate IsPadded(padded: string, part: string) {
    exists l: nat, r: nat :: padded == Colons(l) + part + Colons(r)
  }

  lemma {:induction false} PaddedPartsKept(padded: seq<string>, parts: seq<string>)
    requires PaddedBy(padded, parts) && AllPlain(parts)
    ensures Kept(padded) == parts
  {
    if parts != [] {
      var n := |parts| - 1;
      PaddedPartsKept(padded[..n], parts[..n]);
      assert IsPadded(padded[n], parts[n]) && parts[n] in parts;
      var l: nat, r: nat :| padded[n] == Colons(l) + parts[n] + Colons(r);
      assert parts[n][0] in parts[n] && parts[n][|parts[n]| - 1] in parts[n];
      TrimStrips(l, parts[n], r);
    }
  }

  /** Separators before and after a part do not change the key. */
  lemma PaddingIgnored(padded: seq<string>, parts: seq<string>)
    requires PaddedBy(padded, parts) && AllPlain(parts)
    ensures KeyOf(padded) == KeyOf(parts) && Split(KeyOf(padded)) == parts
  {
    PaddedPartsKept(padded, parts);
    PlainPartsKept(parts);
    SplitUndoesKey(parts);
  }

  lemma {:induction false} KeptConcat(a: seq<string>, b: seq<string>)
    ensures Kept(a + b) == Kept(a) + Kept(b)
  {
    if b == [] {
      assert a + b == a;
    } else {
      KeptConcat(a, b[..|b| - 1]);
      assert (a + b)[..|a + b| - 1] == a + b[..|b| - 1];
    }
  }

  /** Nor do empty parts, wherever they stand. */
  lemma EmptyPartsSkipped(a: seq<string>, b: seq<string>)
    ensures KeyOf(a + [""] + b) == KeyOf(a + b)
  {
    KeptConcat(a + [""], b);
    KeptConcat(a, [""]);
    KeptConcat(a, b);
    assert Kept([""]) == [];
  }

  // ---------------------------------------------------------------- what is not promised

  lemma {:induction false} TrimLeftEmpty(s: string)
    ensures TrimLeft(s) == "" <==> forall c <- s :: c == ':'
    ensures TrimLeft(s) != "" ==> TrimLeft(s)[0] != ':'
  {
    if s != "" && s[0] == ':' {
      TrimLeftEmpty(s[1..]);
      assert forall c :: c in s <==> c == s[0] || c in s[1..];
    } else if s != "" {
      assert s[0] in s;
    }
  }

  lemma {:induction false} TrimRightEmpty(s: string)
    ensures TrimRight(s) == "" <==> forall c <- s :: c == ':'
  {
    if s != "" && s[|s| - 1] == ':' {
      var front := s[..|s| - 1];
      TrimRightEmpty(front);
      assert s == front + [':'];
      assert forall c :: c in front + [':'] <==> c in front || c == ':';
    } else if s != "" {
      assert s[|s| - 1] in s;
    }
  }

  predicate OnlyColons(part: string) { part != "" && forall c <- part :: c == ':' }

  lemma TrimEmpty(part: string)
    requires part != ""
    ensures Trim(part) == "" <==> OnlyColons(part)
  {
    TrimLeftEmpty(part);
    TrimRightEmpty(TrimLeft(part));
    if TrimLeft(part) != "" {
      assert TrimLeft(part)[0] in TrimLeft(part);
    }
  }

  function Colons(n: nat): string { seq(n, _ => ':') }

  lemma {:induction false} TrimLeftDrops(n: nat, s: string)
    ensures TrimLeft(Colons(n) + s) == TrimLeft(s)
  {
    if n == 0 {
      assert Colons(0) + s == s;
    } else {
      TrimLeftDrops(n - 1, s);
      assert (Colons(n) + s)[1..] == Colons(n - 1) + s;
    }
  }

  lemma {:induction false} TrimRightDrops(s: string, n: nat)
    ensures TrimRight(s + Colons(n)) == TrimRight(s)
  {
    if n == 0 {
      assert s + Colons(0) == s;
    } else {
      TrimRightDrops(s, n - 1);
      var t := s + Colons(n);
      assert t[..|t| - 1] == s + Colons(n - 1);
    }
  }

  /** Separators around a part make no difference; those inside it stay. */
  lemma TrimStrips(l: nat, core: string, r: nat)
    requires core != "" ==> core[0] != ':' && core[|core| - 1] != ':'
    ensures Trim(Colons(l) + core + Colons(r)) == core
  {
    assert Colons(l) + core + Colons(r) == Colons(l) + (core + Colons(r));
    TrimLeftDrops(l, core + Colons(r));
    if core == "" {
      TrimLeftDrops(r, "");
      assert core + Colons(r) == Colons(r) + "";
    } else {
      TrimRightDrops(core, r);
    }
  }

  /** Empty parts are said to be skipped, but the test comes before the trimming: a key gets an empty component
      exactly when a part consists of separators alone. */
  lemma {:induction false} EmptyComponentIff(parts: seq<string>)
    ensures "" in Kept(parts) <==> exists part <- parts :: OnlyColons(part)
  {
    if parts != [] {
      var front, last := parts[..|parts| - 1], parts[|parts| - 1];
      EmptyComponentIff(front);
      assert parts == front + [last];
      if last != "" {
        TrimEmpty(last);
      }
    }
  }

  lemma ColonPartIsNotSkipped()
    ensures KeyOf(["a", ":", "b"]) == "a::b" != KeyOf(["a", "b"])
  {
    var ps, qs := ["a", ":", "b"], ["a", "b"];
    assert ps[..2] == ["a", ":"] && ps[..2][..1] == ["a"] && ["a"][..0] == [];
    assert Kept(["a"]) == ["a"];
    assert TrimLeft(":") == "";
    assert Kept(["a", ":"]) == ["a", ""];
    assert Kept(ps) == ["a", "", "b"];
    PlainPartsKept(qs);
    assert ["a", "", "b"][1..] == ["", "b"] && ["", "b"][1..] == ["b"];
    assert Join(["", "b"]) == ":b";
    assert ["a", "b"][1..] == ["b"];
    assert Join(["b"]) == "b";
    assert Join(qs) == "a:b";
    assert "a::b"[2] == ':';
  }

  // ---------------------------------------------------------------- prefixes of keys

  lemma HeadsMatch(a: string, x: string, b: string, y: string)
    requires ':' !in a && ':' !in b
    ensures HasPrefix(a + ":" + x, b + ":" + y) <==> a == b && HasPrefix(x, y)
    ensures !HasPrefix(a, b + ":" + y)
    ensures HasPrefix(a + ":" + x, b) <==> HasPrefix(a, b)
  {
    var s, t := a + ":" + x, b + ":" + y;
    assert t[|b|] == ':' && s[|a|] == ':';
    assert forall i :: 0 <= i < |a| ==> s[i] == a[i];
    assert forall i :: 0 <= i < |b| ==> t[i] == b[i];
    if HasPrefix(s, t) {
      assert forall i :: 0 <= i < |t| ==> s[i] == s[..|t|][i];
      assert |a| == |b|;
      assert a == s[..|t|][..|a|] == b;
      assert x[..|y|] == s[..|t|][|a| + 1..] == t[|b| + 1..] == y;
    }
    if a == b && HasPrefix(x, y) {
      assert s[..|t|] == a + ":" + x[..|y|];
    }
    if HasPrefix(s, b) && |b| <= |a| {
      assert a[..|b|] == s[..|b|];
    }
    if HasPrefix(a, b) {
      assert s[..|b|] == a[..|b|];
    }
  }

  /** Among keys of plain parts, starting with Key(qs) and a separator means lying strictly below qs. */
  lemma {:induction false} PrefixIsDescent(ps: seq<string>, qs: seq<string>)
    requires AllPlain(ps) && AllPlain(qs)
    ensures HasPrefix(Join(ps), Join(qs) + ":") <==> qs != [] && qs < ps
  {
    hide HasPrefix;
    if ps == [] || qs == [] {
      NoLeadingColon(ps, Join(qs));
      assert "" + ":" == ":";
    } else {
      var x := if |ps| == 1 then "" else Join(ps[1..]);
      var y := if |qs| == 1 then "" else Join(qs[1..]) + ":";
      assert Join(qs) + ":" == qs[0] + ":" + y;
      assert Plain(ps[0]) && Plain(qs[0]);
      HeadsMatch(ps[0], x, qs[0], y);
      ProperPrefixTail(ps, qs);
      if |ps| > 1 && |qs| > 1 {
        PrefixIsDescent(ps[1..], qs[1..]);
      } else if |ps| > 1 {
        AnyHasEmptyPrefix(x);
      }
    }
  }

  lemma AnyHasEmptyPrefix(s: string)
    ensures HasPrefix(s, "")
  {
  }

  lemma NoLeadingColon(ps: seq<string>, q: string)
    requires AllPlain(ps)
    ensures !HasPrefix(Join(ps), ":")
    ensures ps == [] ==> !HasPrefix(Join(ps), q + ":")
  {
    if ps != [] {
      assert Plain(ps[0]);
      assert Join(ps)[0] == ps[0][0] && ps[0][0] in ps[0];
    }
  }

  lemma ProperPrefixTail(ps: seq<string>, qs: seq<string>)
    requires ps != [] && qs != []
    ensures qs < ps <==> ps[0] == qs[0] && qs[1..] < ps[1..]
  {
    if ps[0] == qs[0] && qs[1..] < ps[1..] {
      assert qs == [qs[0]] + qs[1..] && ps == [ps[0]] + ps[1..];
    }
  }

  /** Without the separator the last part need only match as a string. */
  predicate BareMatch(ps: seq<string>, qs: seq<string>) {
    var n := |qs|;
    n == 0 || (n <= |ps| && qs[..n - 1] == ps[..n - 1] && HasPrefix(ps[n - 1], qs[n - 1]))
  }

  lemma {:induction false} BarePrefixMatches(ps: seq<string>, qs: seq<string>)
    requires AllPlain(ps) && AllPlain(qs)
    ensures HasPrefix(Join(ps), Join(qs)) <==> BareMatch(ps, qs)
  {
    hide HasPrefix;
    if qs == [] {
      AnyHasEmptyPrefix(Join(ps));
    } else if ps == [] {
      assert Plain(qs[0]);
      EmptyHasNoPrefix(Join(qs));
    } else {
      assert Plain(ps[0]) && Plain(qs[0]);
      var x := if |ps| == 1 then "" else Join(ps[1..]);
      var y := if |qs| == 1 then "" else Join(qs[1..]);
      HeadsMatch(ps[0], x, qs[0], y);
      if |ps| > 1 && |qs| > 1 {
        BarePrefixMatches(ps[1..], qs[1..]);
        BareMatchTail(ps, qs);
      }
    }
  }

  lemma EmptyHasNoPrefix(s: string)
    requires s != ""
    ensures !HasPrefix("", s)
  {
  }

  lemma BareMatchTail(ps: seq<string>, qs: seq<string>)
    requires |ps| > 1 && |qs| > 1
    ensures BareMatch(ps, qs) <==> ps[0] == qs[0] && BareMatch(ps[1..], qs[1..])
  {
    hide HasPrefix;
    var n := |qs|;
    assert qs[1..][..n - 2] == qs[..n - 1][1..];
    if n <= |ps| {
      assert ps[1..][..n - 2] == ps[..n - 1][1..];
      assert qs[..n - 1] == [qs[0]] + qs[..n - 1][1..];
      assert ps[..n - 1] == [ps[0]] + ps[..n - 1][1..];
    }
  }

  // ---------------------------------------------------------------- what deletion by prefix leaves

  function DeletedByPrefix(m: Store, prefix: string): Store { Apply(m, DeleteByPrefix(prefix), 0, 0).0 }

  /** DeleteByPrefix(Key(qs) + ":") removes exactly the strict descendants of qs. */
  lemma RemovesExactlyDescendants(m: Store, ps: seq<string>, qs: seq<string>)
    requires AllPlain(ps) && AllPlain(qs)
    ensures var rest := DeletedByPrefix(m, KeyOf(qs) + ":");
            && (KeyOf(ps) in rest <==> KeyOf(ps) in m && !(qs != [] && qs < ps))
            && (KeyOf(ps) in rest ==> rest[KeyOf(ps)] == m[KeyOf(ps)])
  {
    hide HasPrefix;
    PlainPartsKept(ps);
    PlainPartsKept(qs);
    PrefixIsDescent(ps, qs);
  }

  /** DeleteByPrefix(Key(qs)) removes the subtree of qs, but also every sibling subtree whose last part merely
      starts with qs's last part. */
  lemma BarePrefixRemoves(m: Store, ps: seq<string>, qs: seq<string>)
    requires AllPlain(ps) && AllPlain(qs)
    ensures KeyOf(ps) in DeletedByPrefix(m, KeyOf(qs)) <==> KeyOf(ps) in m && !BareMatch(ps, qs)
  {
    hide HasPrefix, BareMatch;
    PlainPartsKept(ps);
    PlainPartsKept(qs);
    BarePrefixMatches(ps, qs);
  }

  /** The bare prefix removes no more than the subtree of qs exactly when no stored sibling continues qs's last
      part: for "user:1" the key "user:10" is such a sibling. */
  lemma BarePrefixOverreaches(m: Store, ps: seq<string>, qs: seq<string>)
    requires AllPlain(ps) && AllPlain(qs) && qs != []
    ensures var n := |qs|;
            KeyOf(ps) in m && KeyOf(ps) !in DeletedByPrefix(m, KeyOf(qs)) && !(qs <= ps)
            <==> KeyOf(ps) in m && n <= |ps| && qs[..n - 1] == ps[..n - 1]
                 && HasPrefix(ps[n - 1], qs[n - 1]) && ps[n - 1] != qs[n - 1]
  {
    hide KeyOf;
    BarePrefixRemoves(m, ps, qs);
    var n := |qs|;
    if n <= |ps| && qs[..n - 1] == ps[..n - 1] {
      assert ps[..n] == ps[..n - 1] + [ps[n - 1]] && qs == qs[..n - 1] + [qs[n - 1]];
    }
  }

  lemma UserTenGoesWithUserOne(m: Store)
    requires KeyOf(["user", "10"]) in m
    ensures KeyOf(["user", "10"]) !in DeletedByPrefix(m, KeyOf(["user", "1"]))
  {
    var ps, qs := ["user", "10"], ["user", "1"];
    assert "10"[..1] == "1";
    assert HasPrefix(ps[1], qs[1]);
    assert qs[..1] == ps[..1];
    BarePrefixRemoves(m, ps, qs);
  }

  // ---------------------------------------------------------------- the handlers

  predicate StartsWithAny(key: string, prefixes: seq<string>) {
    exists prefix <- prefixes :: HasPrefix(key, prefix)
  }

  /** The handler SubscribeKeys registers. */
  method InvalidateKeys(cache: MemoryCache, keys: seq<string>)
    requires cache.Valid()
    modifies cache`items, cache`store
    ensures cache.Valid() && cache.store == Without(old(cache.store), k => k in keys)
  {
    hide MemoryCache.Valid;
    cache.DeleteMany(keys);
  }

  /** The handler SubscribePrefixes registers. */
  method InvalidatePrefixes(cache: MemoryCache, prefixes: seq<string>)
    requires cache.Valid()
    modifies cache`items, cache`store
    ensures cache.Valid() && cache.store == Without(old(cache.store), k => StartsWithAny(k, prefixes))
  {
    hide MemoryCache.Valid, HasPrefix;
    for i := 0 to |prefixes|
      invariant cache.Valid() && cache.store == Without(old(cache.store), k => StartsWithAny(k, prefixes[..i]))
    {
      cache.DeleteByPrefix(prefixes[i]);
      OneMorePrefix(old(cache.store), prefixes, i);
    }
    assert prefixes[..|prefixes|] == prefixes;
  }

  lemma OneMorePrefix(m: Store, prefixes: seq<string>, i: nat)
    requires i < |prefixes|
    ensures Without(Without(m, k => StartsWithAny(k, prefixes[..i])), k => HasPrefix(k, prefixes[i]))
         == Without(m, k => StartsWithAny(k, prefixes[..i + 1]))
  {
    hide HasPrefix;
    assert prefixes[..i + 1] == prefixes[..i] + [prefixes[i]];
    forall k: string ensures StartsWithAny(k, prefixes[..i + 1])
                         <==> StartsWithAny(k, prefixes[..i]) || HasPrefix(k, prefixes[i])
    {
      if HasPrefix(k, prefixes[i]) {
        assert prefixes[i] in prefixes[..i + 1];
      }
    }
  }

  /** Invalidating the key of qs and the prefix Key(qs) + ":" removes the subtree of qs and nothing else, in
      whichever order the two handlers run. */
  lemma SubtreeInvalidation(m: Store, ps: seq<string>, qs: seq<string>)
    requires AllPlain(ps) && AllPlain(qs) && qs != []
    ensures var below := (k: string) => StartsWithAny(k, [KeyOf(qs) + ":"]);
            var self := (k: string) => k in [KeyOf(qs)];
            && Without(Without(m, self), below) == Without(Without(m, below), self)
            && (KeyOf(ps) in Without(Without(m, self), below) <==> KeyOf(ps) in m && !(qs <= ps))
  {
    hide HasPrefix, KeyOf;
    KeyInjective(ps, qs);
    RemovesExactlyDescendants(m, ps, qs);
    assert StartsWithAny(KeyOf(ps), [KeyOf(qs) + ":"]) <==> HasPrefix(KeyOf(ps), KeyOf(qs) + ":");
  }
}
