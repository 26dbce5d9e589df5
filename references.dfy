/** The value side of ActorReference.kt: a reference is identified by its
    name alone, and the Kotlin collections that hold references (the
    watcher set of an actor, the child list of a Reaper) use that identity.

    `A` is the type of the referenced actor. */
module References {

  import JavaString
  import opened Wrappers

  /** `ActorReference(system, actor, name)`. The owning system is left out:
      the model has one system. */
  datatype Ref<A> = Ref(actor: A, name: string)

  /** `equals`: `other` is `None` for null or an object of another class. */
  predicate Equals<A>(r: Ref<A>, other: Option<Ref<A>>): (b: bool)
    ensures other == Some(r) ==> b
    ensures b ==> other.Some? && HashCode(r) == HashCode(other.value) && ToString(r) == ToString(other.value)
  {
    other.Some? && other.value.name == r.name
  }

  /** `hashCode`: the hash of the name. */
  function HashCode<A>(r: Ref<A>): (h: int)
    ensures JavaString.MinInt <= h <= JavaString.MaxInt
  {
    JavaString.HashCode(r.name)
  }

  const ToStringPrefix: string := "ActorReference(actor='"
  const ToStringSuffix: string := "')"

  /** `toString`. */
  function ToString<A>(r: Ref<A>): (s: string)
    ensures |s| == |ToStringPrefix| + |r.name| + |ToStringSuffix|
    ensures s[..|ToStringPrefix|] == ToStringPrefix && s[|s| - |ToStringSuffix|..] == ToStringSuffix
    ensures s[|ToStringPrefix|..|s| - |ToStringSuffix|] == r.name
  {
    ToStringPrefix + r.name + ToStringSuffix
  }

  /** Reads the name back out of a `toString` rendering. */
  function NameOfString(s: string): (r: Option<string>)
    ensures r.Some? ==> ToStringPrefix + r.value + ToStringSuffix == s
  {
    if |s| >= |ToStringPrefix| + |ToStringSuffix|
       && s[..|ToStringPrefix|] == ToStringPrefix
       && s[|s| - |ToStringSuffix|..] == ToStringSuffix
    then
      var n := s[|ToStringPrefix|..|s| - |ToStringSuffix|];
      assert s == s[..|ToStringPrefix|] + n + s[|s| - |ToStringSuffix|..];
      Some(n)
    else None
  }

  /** `equals` is an equivalence relation and ignores the actor instance:
      a reference rebuilt around another actor with the same name is equal. */
  lemma EqualsIsNameEquality<A>(a: Ref<A>, b: Ref<A>, c: Ref<A>)
    ensures Equals(a, Some(a))
    ensures Equals(a, Some(b)) <==> a.name == b.name
    ensures Equals(a, Some(b)) ==> Equals(b, Some(a))
    ensures Equals(a, Some(b)) && Equals(b, Some(c)) ==> Equals(a, Some(c))
    ensures !Equals(a, None)
  {
  }

  /** Equal references hash alike, as the `hashCode` contract requires. */
  lemma EqualsImpliesSameHash<A>(a: Ref<A>, b: Ref<A>)
    requires Equals(a, Some(b))
    ensures HashCode(a) == HashCode(b)
  {
  }

  /** `toString` round-trips through NameOfString. */
  lemma {:induction false} ToStringRoundTrip<A>(r: Ref<A>)
    ensures NameOfString(ToString(r)) == Some(r.name)
  {
    var s := ToString(r);
    assert s[..|ToStringPrefix|] == ToStringPrefix;
    assert s[|s| - |ToStringSuffix|..] == ToStringSuffix;
    assert s[|ToStringPrefix|..|s| - |ToStringSuffix|] == r.name;
  }

  /** Two references render alike exactly when they are equal. */
  lemma ToStringMatchesEquals<A>(a: Ref<A>, b: Ref<A>)
    ensures ToString(a) == ToString(b) <==> Equals(a, Some(b))
  {
    ToStringRoundTrip(a);
    ToStringRoundTrip(b);
  }

  /** The names of a list of references, in order. */
  function Names<A>(s: seq<Ref<A>>): (ns: seq<string>)
    ensures |ns| == |s|
    ensures forall i :: 0 <= i < |s| ==> ns[i] == s[i].name
  {
    if s == [] then [] else [s[0].name] + Names(s[1..])
  }

  predicate ContainsName<A>(s: seq<Ref<A>>, name: string)
  {
    exists i :: 0 <= i < |s| && s[i].name == name
  }

  /** No two references of `s` are equal. */
  predicate DistinctNames<A>(s: seq<Ref<A>>)
  {
    forall i, j :: 0 <= i < j < |s| ==> s[i].name != s[j].name
  }

  /** `set += r` on a `mutableSetOf<ActorReference>` (a LinkedHashSet):
      nothing happens when an equal reference is present, otherwise `r` is
      appended, keeping insertion order. */
  function AddToSet<A>(s: seq<Ref<A>>, r: Ref<A>): (t: seq<Ref<A>>)
    ensures ContainsName(s, r.name) ==> t == s
    ensures !ContainsName(s, r.name) ==> t == s + [r]
  {
    if ContainsName(s, r.name) then s else s + [r]
  }

  /** The set keeps its members distinct, gains the name of `r`, and adding
      the same reference twice is the same as adding it once. */
  lemma AddToSetProperties<A>(s: seq<Ref<A>>, r: Ref<A>)
    requires DistinctNames(s)
    ensures DistinctNames(AddToSet(s, r))
    ensures ContainsName(AddToSet(s, r), r.name)
    ensures AddToSet(AddToSet(s, r), r) == AddToSet(s, r)
    ensures forall n :: ContainsName(AddToSet(s, r), n) <==> ContainsName(s, n) || n == r.name
  {
    var t := AddToSet(s, r);
    assert t[|t| - 1].name == r.name || ContainsName(s, r.name);
    forall n | ContainsName(s, n) ensures ContainsName(t, n) {
      var i :| 0 <= i < |s| && s[i].name == n;
      assert t[i] == s[i];
    }
  }

  /** `list -= r` on a `mutableListOf<ActorReference>`: removes the first
      element equal to `r`, that is, the first one with its name. */
  function RemoveFirst<A>(s: seq<Ref<A>>, name: string): (t: seq<Ref<A>>)
    ensures |t| == if ContainsName(s, name) then |s| - 1 else |s|
  {
    if s == [] then []
    else if s[0].name == name then s[1..]
    else
      assert ContainsName(s, name) <==> ContainsName(s[1..], name) by {
        if ContainsName(s, name) {
          var i :| 0 <= i < |s| && s[i].name == name;
          assert s[1..][i - 1] == s[i];
        }
        if ContainsName(s[1..], name) {
          var i :| 0 <= i < |s[1..]| && s[1..][i].name == name;
          assert s[i + 1] == s[1..][i];
        }
      }
      [s[0]] + RemoveFirst(s[1..], name)
  }

  lemma ContainsNameIffInNames<A>(s: seq<Ref<A>>, name: string)
    ensures ContainsName(s, name) <==> name in multiset(Names(s))
  {
    var ns := Names(s);
    if name in multiset(ns) {
      var i :| 0 <= i < |ns| && ns[i] == name;
    }
    if ContainsName(s, name) {
      var i :| 0 <= i < |s| && s[i].name == name;
      assert ns[i] == name;
    }
  }

  /** Removing takes away exactly one occurrence of the name, and only when
      it is present; every other element is kept. */
  lemma {:induction false} RemoveFirstNames<A>(s: seq<Ref<A>>, name: string)
    ensures multiset(Names(RemoveFirst(s, name))) == multiset(Names(s)) - multiset{name}
  {
    if s != [] {
      assert Names(s) == [s[0].name] + Names(s[1..]);
      if s[0].name != name {
        RemoveFirstNames(s[1..], name);
        assert Names(RemoveFirst(s, name)) == [s[0].name] + Names(RemoveFirst(s[1..], name));
      }
    }
  }

  /** The position of the first reference with the given name. */
  function IndexOf<A>(s: seq<Ref<A>>, name: string): (i: nat)
    requires ContainsName(s, name)
    ensures i < |s| && s[i].name == name
    ensures forall j :: 0 <= j < i ==> s[j].name != name
  {
    if s[0].name == name then 0
    else
      assert ContainsName(s[1..], name) by {
        var k :| 0 <= k < |s| && s[k].name == name;
        assert s[1..][k - 1] == s[k];
      }
      1 + IndexOf(s[1..], name)
  }

  /** Removal keeps the relative order of what remains: the result is `s`
      with the first match taken out. */
  lemma {:induction false} RemoveFirstIsDeletion<A>(s: seq<Ref<A>>, name: string)
    requires ContainsName(s, name)
    ensures var i := IndexOf(s, name); RemoveFirst(s, name) == s[..i] + s[i + 1..]
  {
    if s[0].name != name {
      var i := IndexOf(s, name);
      RemoveFirstIsDeletion(s[1..], name);
      assert RemoveFirst(s[1..], name) == s[1..][..i - 1] + s[1..][i..];
      assert s[..i] == [s[0]] + s[1..][..i - 1];
      assert s[1..][i..] == s[i + 1..];
    }
  }
}
