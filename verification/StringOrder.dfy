/** The byte-wise order of Go strings and the library sort built on it. */
module StringOrder {

  /** Lexicographic order: the order of `sort.Strings` and of `<` on Go strings. */
  predicate Less(a: string, b: string)
    decreases |a|
  {
    b != "" && (a == "" || a[0] < b[0] || (a[0] == b[0] && Less(a[1..], b[1..])))
  }

  lemma {:induction false} LessTransitive(a: string, b: string, c: string)
    requires Less(a, b) && Less(b, c)
    ensures Less(a, c)
    decreases |a|
  {
    if a != "" && a[0] == b[0] && b[0] == c[0] {
      LessTransitive(a[1..], b[1..], c[1..]);
    }
  }

  lemma {:induction false} LessTrichotomy(a: string, b: string)
    ensures Less(a, b) || Less(b, a) || a == b
    ensures !(Less(a, b) && Less(b, a))
    ensures a == b ==> !Less(a, b)
    decreases |a|
  {
    if a != "" && b != "" && a[0] == b[0] {
      LessTrichotomy(a[1..], b[1..]);
      assert a == [a[0]] + a[1..] && b == [b[0]] + b[1..];
    }
  }

  /** The strings agree up to `k`, where `a` ends or has the smaller character. */
  ghost predicate DiffersAt(a: string, b: string, k: nat) {
    k <= |a| && k < |b| && a[..k] == b[..k] && (k < |a| ==> a[k] < b[k])
  }

  /** The order is decided by the first difference; a proper prefix comes first. */
  lemma {:induction false} LessIff(a: string, b: string)
    ensures Less(a, b) <==> exists k: nat :: DiffersAt(a, b, k)
    decreases |a|
  {
    if b != "" && a == "" {
      assert DiffersAt(a, b, 0);
    } else if b != "" && a[0] < b[0] {
      assert DiffersAt(a, b, 0);
    } else if b != "" && a[0] == b[0] {
      LessIff(a[1..], b[1..]);
      DiffersLater(a, b);
    }
  }

  lemma DiffersLater(a: string, b: string)
    requires a != "" && b != "" && a[0] == b[0]
    ensures (exists k: nat :: DiffersAt(a, b, k)) <==> exists k: nat :: DiffersAt(a[1..], b[1..], k)
  {
    if k: nat :| DiffersAt(a[1..], b[1..], k) {
      assert a[..k + 1] == [a[0]] + a[1..][..k] && b[..k + 1] == [b[0]] + b[1..][..k];
      assert DiffersAt(a, b, k + 1);
    }
    if k: nat :| DiffersAt(a, b, k) {
      assert k > 0 && a[1..][..k - 1] == a[..k][1..] && b[1..][..k - 1] == b[..k][1..];
      assert DiffersAt(a[1..], b[1..], k - 1);
    }
  }

  predicate StrictlySorted(s: seq<string>) {
    forall i, j | 0 <= i < j < |s| :: Less(s[i], s[j])
  }

  ghost predicate NoDuplicates<T>(s: seq<T>) {
    forall i, j | 0 <= i < j < |s| :: s[i] != s[j]
  }

  ghost function Elements<T>(s: seq<T>): set<T> {
    set x | x in s
  }

  /** Inserts `x` in front of the first larger string. */
  function Insert(x: string, s: seq<string>): (r: seq<string>)
    requires StrictlySorted(s) && x !in s
    ensures StrictlySorted(r)
    ensures Elements(r) == Elements(s) + {x}
    ensures |r| == |s| + 1
  {
    if s == [] then [x]
    else
      LessTrichotomy(x, s[0]);
      if Less(x, s[0]) then
        InsertFront(x, s);
        [x] + s
      else
        var rest := Insert(x, s[1..]);
        InsertStep(x, s, rest);
        [s[0]] + rest
  }

  lemma InsertFront(x: string, s: seq<string>)
    requires StrictlySorted(s) && s != [] && Less(x, s[0])
    ensures StrictlySorted([x] + s) && Elements([x] + s) == Elements(s) + {x}
  {
    forall j | 0 < j < |s| ensures Less(x, s[j]) { LessTransitive(x, s[0], s[j]); }
  }

  lemma InsertStep(x: string, s: seq<string>, rest: seq<string>)
    requires StrictlySorted(s) && s != [] && Less(s[0], x)
    requires StrictlySorted(rest) && Elements(rest) == Elements(s[1..]) + {x}
    ensures StrictlySorted([s[0]] + rest) && Elements([s[0]] + rest) == Elements(s) + {x}
  {
    var r := [s[0]] + rest;
    forall j | 0 <= j < |rest| ensures Less(s[0], rest[j]) {
      assert rest[j] in Elements(rest);
    }
    assert s == [s[0]] + s[1..];
    assert forall y :: y in Elements(r) <==> y == s[0] || y in Elements(rest);
  }

  /** `sort.Strings` on a list without duplicates. */
  function Sorted(s: seq<string>): (r: seq<string>)
    requires NoDuplicates(s)
    ensures StrictlySorted(r) && Elements(r) == Elements(s) && |r| == |s|
  {
    if s == [] then []
    else
      var rest := Sorted(s[1..]);
      assert s[0] !in s[1..];
      assert s[0] !in Elements(rest);
      assert s == [s[0]] + s[1..];
      Insert(s[0], rest)
  }

  /** The members of a set in ascending order. */
  ghost function InOrder(names: set<string>): (r: seq<string>)
    ensures StrictlySorted(r) && Elements(r) == names && |r| == |names|
  {
    if names == {} then []
    else
      var x :| x in names;
      var rest := InOrder(names - {x});
      assert x !in Elements(rest);
      Insert(x, rest)
  }

  lemma StrictlySortedNoDuplicates(s: seq<string>)
    requires StrictlySorted(s)
    ensures NoDuplicates(s)
  {
    forall i, j | 0 <= i < j < |s| ensures s[i] != s[j] { LessTrichotomy(s[i], s[j]); }
  }

  lemma NoElements<T>(s: seq<T>)
    ensures Elements(s) == {} <==> s == []
  {
    if s != [] { assert s[0] in Elements(s); }
  }

  /** A set has one ascending enumeration, so the order in which a Go map is walked cannot show. */
  lemma {:induction false} SortedUnique(a: seq<string>, b: seq<string>)
    requires StrictlySorted(a) && StrictlySorted(b) && Elements(a) == Elements(b)
    ensures a == b
    decreases |a|
  {
    if a != [] && b != [] {
      SortedHead(a, b);
      SortedTail(a);
      SortedTail(b);
      SortedUnique(a[1..], b[1..]);
      assert a == [a[0]] + a[1..] && b == [b[0]] + b[1..];
    } else {
      NoElements(a);
      NoElements(b);
    }
  }

  lemma SortedHead(a: seq<string>, b: seq<string>)
    requires StrictlySorted(a) && StrictlySorted(b) && Elements(a) == Elements(b) && a != [] && b != []
    ensures a[0] == b[0]
  {
    assert a[0] in Elements(b) && b[0] in Elements(a);
    var i :| 0 <= i < |b| && b[i] == a[0];
    var j :| 0 <= j < |a| && a[j] == b[0];
    LessTrichotomy(a[0], b[0]);
  }

  lemma SortedTail(a: seq<string>)
    requires StrictlySorted(a) && a != []
    ensures StrictlySorted(a[1..]) && Elements(a[1..]) == Elements(a) - {a[0]}
  {
    StrictlySortedNoDuplicates(a);
    assert a == [a[0]] + a[1..];
    assert a[0] !in a[1..];
  }

  /** `UnsortedList`: the members of a set in some order. */
  method UnsortedList(names: set<string>) returns (listed: seq<string>)
    ensures NoDuplicates(listed) && Elements(listed) == names
  {
    var rest := names;
    listed := [];
    while rest != {}
      invariant rest <= names && NoDuplicates(listed)
      invariant Elements(listed) == names - rest
      decreases rest
    {
      var x :| x in rest;
      assert x !in Elements(listed);
      assert Elements(listed + [x]) == Elements(listed) + {x};
      listed := listed + [x];
      rest := rest - {x};
    }
  }

  /** `UnsortedList` followed by `sort.Strings`: whatever order the set was listed in. */
  method SortedMembers(names: set<string>) returns (r: seq<string>)
    ensures r == InOrder(names)
  {
    var listed := UnsortedList(names);
    r := Sorted(listed);
    SortedUnique(r, InOrder(names));
  }
}
