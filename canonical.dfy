/**
  Canonical form of a flat record: its members sorted by name, as a recursive key sort
  followed by a deterministic writer produces them. Two records with the same members, given
  in any order, get the same canonical form and hence the same stored bytes.
 */
module Canonical {
  import opened Wrappers
  import opened KeyOrder
  import opened JsonText

  function NameSet(fs: seq<Field>): set<string> {
    set f | f in fs :: f.name
  }

  /** No two members share a name, as in any object built from a literal or by assignment. */
  predicate DistinctNames(fs: seq<Field>) {
    forall i, j :: 0 <= i < j < |fs| ==> fs[i].name != fs[j].name
  }

  predicate SortedByName(fs: seq<Field>) {
    forall i, j :: 0 <= i < j < |fs| ==> Below(fs[i].name, fs[j].name)
  }

  predicate StrictlySortedByName(fs: seq<Field>) {
    forall i, j :: 0 <= i < j < |fs| ==> Less(fs[i].name, fs[j].name)
  }

  /** The value of member `name`; when a name occurs twice the later member wins, as in `JSON.parse`. */
  function Lookup(fs: seq<Field>, name: string): (r: Option<string>)
    ensures r.Some? <==> name in NameSet(fs)
    decreases |fs|
  {
    if fs == [] then None
    else
      match Lookup(fs[1..], name)
      case Some(v) => Some(v)
      case None => if fs[0].name == name then Some(fs[0].value) else None
  }

  /** Every member of `fs` has a name no earlier than `n` (later than `n` when `strict`). */
  predicate AllAfter(n: string, fs: seq<Field>, strict: bool) {
    forall k :: 0 <= k < |fs| ==> if strict then Less(n, fs[k].name) else Below(n, fs[k].name)
  }

  lemma SortedCons(f: Field, t: seq<Field>)
    requires SortedByName(t) && AllAfter(f.name, t, false)
    ensures SortedByName([f] + t)
  {
  }

  lemma StrictlySortedCons(f: Field, t: seq<Field>)
    requires StrictlySortedByName(t) && AllAfter(f.name, t, true)
    ensures StrictlySortedByName([f] + t)
  {
  }

  /** The members of `[f] + t`'s tail are those of `t`; a member found there is `f` or one of `t`. */
  lemma MemberOfInsert(f: Field, t: seq<Field>, r: seq<Field>, k: nat)
    requires multiset(r) == multiset(t) + multiset{f} && k < |r|
    ensures r[k] == f || exists j :: 0 <= j < |t| && t[j] == r[k]
  {
    assert r[k] in multiset(r);
    if r[k] != f {
      assert r[k] in multiset(t);
      assert r[k] in t;
    }
  }

  function InsertField(f: Field, s: seq<Field>): (r: seq<Field>)
    ensures multiset(r) == multiset(s) + multiset{f}
    decreases |s|
  {
    if s == [] then [f]
    else if Below(f.name, s[0].name) then [f] + s
    else
      assert s == [s[0]] + s[1..];
      [s[0]] + InsertField(f, s[1..])
  }

  /** Inserting into a sorted sequence keeps it sorted, strictly so when the name is new. */
  lemma {:induction false} InsertFieldSorted(f: Field, s: seq<Field>)
    requires SortedByName(s)
    ensures SortedByName(InsertField(f, s))
    ensures StrictlySortedByName(s) && f.name !in NameSet(s) ==> StrictlySortedByName(InsertField(f, s))
    decreases |s|
  {
    if s == [] {
    } else if Below(f.name, s[0].name) {
      var strict := StrictlySortedByName(s) && f.name !in NameSet(s);
      forall j | 0 <= j < |s|
        ensures Below(f.name, s[j].name)
        ensures strict ==> Less(f.name, s[j].name)
      {
        if j > 0 {
          BelowTransitive(f.name, s[0].name, s[j].name);
        }
        assert s[j] in s;
      }
      SortedCons(f, s);
      if strict {
        StrictlySortedCons(f, s);
      }
    } else {
      var strict := StrictlySortedByName(s) && f.name !in NameSet(s);
      BelowTotal(f.name, s[0].name);
      var t := s[1..];
      assert NameSet(t) <= NameSet(s) by {
        forall g | g in t
          ensures g in s
        {
        }
      }
      InsertFieldSorted(f, t);
      var rest := InsertField(f, t);
      forall k | 0 <= k < |rest|
        ensures Below(s[0].name, rest[k].name)
        ensures strict ==> Less(s[0].name, rest[k].name)
      {
        MemberOfInsert(f, t, rest, k);
        if rest[k] == f {
          assert s[0] in s;
        } else {
          var j :| 0 <= j < |t| && t[j] == rest[k];
          assert s[j + 1] == rest[k];
        }
      }
      SortedCons(s[0], rest);
      if strict {
        StrictlySortedCons(s[0], rest);
      }
    }
  }

  /** The canonical form: the same members, sorted by name. */
  function Canonicalize(fs: seq<Field>): (r: seq<Field>)
    ensures multiset(r) == multiset(fs)
    ensures SortedByName(r)
    ensures DistinctNames(fs) ==> StrictlySortedByName(r)
    decreases |fs|
  {
    if fs == [] then []
    else
      var rest := Canonicalize(fs[1..]);
      assert fs == [fs[0]] + fs[1..];
      CanonicalizeNames(fs, rest);
      InsertFieldSorted(fs[0], rest);
      InsertField(fs[0], rest)
  }

  /** Facts about the tail used by `Canonicalize`: its members keep their names, and a distinct head name is new. */
  lemma CanonicalizeNames(fs: seq<Field>, rest: seq<Field>)
    requires fs != [] && multiset(rest) == multiset(fs[1..])
    ensures NameSet(rest) == NameSet(fs[1..])
    ensures DistinctNames(fs) ==> fs[0].name !in NameSet(rest)
  {
    forall g | g in rest ensures g in fs[1..] {
      assert g in multiset(rest);
    }
    forall g | g in fs[1..] ensures g in rest {
      assert g in multiset(fs[1..]);
    }
    if DistinctNames(fs) {
      forall g | g in fs[1..]
        ensures g.name != fs[0].name
      {
        var j :| 0 <= j < |fs[1..]| && fs[1..][j] == g;
        assert fs[j + 1] == g;
      }
    }
  }

  /** Strict order of consecutive names extends to any two positions. */
  lemma {:induction false} ConsecutiveLess(g: seq<Field>, i: nat, j: nat)
    requires i < j < |g|
    requires forall k :: 0 <= k < |g| - 1 ==> Less(g[k].name, g[k + 1].name)
    ensures Less(g[i].name, g[j].name)
    decreases j - i
  {
    if j > i + 1 {
      ConsecutiveLess(g, i, j - 1);
      LessTransitive(g[i].name, g[j - 1].name, g[j].name);
    }
  }

  lemma StrictlySortedFromConsecutive(g: seq<Field>)
    requires forall k :: 0 <= k < |g| - 1 ==> Less(g[k].name, g[k + 1].name)
    ensures StrictlySortedByName(g)
  {
    forall i, j | 0 <= i < j < |g|
      ensures Less(g[i].name, g[j].name)
    {
      ConsecutiveLess(g, i, j);
    }
  }

  /** Two such sequences begin with the same member: the least one by name. */
  lemma SortedSameHead(s1: seq<Field>, s2: seq<Field>)
    requires StrictlySortedByName(s1) && SortedByName(s2)
    requires multiset(s1) == multiset(s2) && s1 != []
    ensures s2 != [] && s1[0] == s2[0]
  {
    assert s1[0] in multiset(s2);
    assert s2 != [];
    assert s2[0] in multiset(s1);
    var k :| 0 <= k < |s1| && s1[k] == s2[0];
    var m :| 0 <= m < |s2| && s2[m] == s1[0];
    if k > 0 {
      assert Less(s1[0].name, s2[0].name);
      if m == 0 {
        assert false;
      } else {
        assert Below(s2[0].name, s1[0].name);
        BelowAntisymmetric(s1[0].name, s2[0].name);
        assert false;
      }
    }
  }

  lemma SameTails(s1: seq<Field>, s2: seq<Field>)
    requires s1 != [] && s2 != [] && s1[0] == s2[0] && multiset(s1) == multiset(s2)
    ensures multiset(s1[1..]) == multiset(s2[1..])
  {
    assert s1 == [s1[0]] + s1[1..] && s2 == [s2[0]] + s2[1..];
    assert multiset(s1[1..]) == multiset(s1) - multiset{s1[0]};
    assert multiset(s2[1..]) == multiset(s2) - multiset{s2[0]};
  }

  lemma SortedTails(s1: seq<Field>, s2: seq<Field>)
    requires StrictlySortedByName(s1) && SortedByName(s2) && s1 != [] && s2 != []
    ensures StrictlySortedByName(s1[1..]) && SortedByName(s2[1..])
  {
  }

  /** A sequence strictly sorted by name and a sequence sorted by name with the same members are equal. */
  lemma {:induction false} SortedUnique(s1: seq<Field>, s2: seq<Field>)
    requires StrictlySortedByName(s1) && SortedByName(s2)
    requires multiset(s1) == multiset(s2)
    ensures s1 == s2
    decreases |s1|
  {
    if s1 == [] {
      assert |multiset(s2)| == 0;
    } else {
      SortedSameHead(s1, s2);
      SameTails(s1, s2);
      SortedTails(s1, s2);
      SortedUnique(s1[1..], s2[1..]);
      assert s1 == [s1[0]] + s1[1..] && s2 == [s2[0]] + s2[1..];
    }
  }

  /**
    Determinism of the canonical form: records with the same members, supplied in any order,
    have the same canonical form and therefore the same JSON text.
   */
  lemma CanonicalizeDeterministic(a: seq<Field>, b: seq<Field>)
    requires DistinctNames(a)
    requires multiset(a) == multiset(b)
    ensures Canonicalize(a) == Canonicalize(b)
    ensures Stringify(Canonicalize(a)) == Stringify(Canonicalize(b))
  {
    SortedUnique(Canonicalize(a), Canonicalize(b));
  }

  lemma {:induction false} LookupDistinct(fs: seq<Field>, i: nat)
    requires DistinctNames(fs) && i < |fs|
    ensures Lookup(fs, fs[i].name) == Some(fs[i].value)
    decreases |fs|
  {
    if i > 0 {
      LookupDistinct(fs[1..], i - 1);
    } else {
      forall g | g in fs[1..]
        ensures g.name != fs[0].name
      {
        var j :| 0 <= j < |fs[1..]| && fs[1..][j] == g;
        assert fs[j + 1] == g;
      }
    }
  }

  /** Sorting the members changes no member's value. */
  lemma LookupCanonical(fs: seq<Field>, name: string)
    requires DistinctNames(fs)
    ensures Lookup(Canonicalize(fs), name) == Lookup(fs, name)
  {
    var c := Canonicalize(fs);
    if name in NameSet(fs) {
      var g :| g in fs && g.name == name;
      var i :| 0 <= i < |fs| && fs[i] == g;
      assert g in multiset(c);
      var j :| 0 <= j < |c| && c[j] == g;
      LookupDistinct(fs, i);
      LookupDistinct(c, j);
    } else {
      forall g | g in c
        ensures g.name != name
      {
        assert g in multiset(fs);
      }
    }
  }
}
