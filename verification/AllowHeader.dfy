/** The value of the Allow header: the methods of a path, each once, in ascending order. */
module AllowHeader {

  /** Dictionary order. */
  predicate Leq(a: string, b: string) {
    a == "" || (b != "" && (a[0] < b[0] || (a[0] == b[0] && Leq(a[1..], b[1..]))))
  }

  /** Dictionary order is decided at the first place where two words differ, or one of them ends. */
  lemma {:induction false} LeqMeaning(a: string, b: string)
    ensures Leq(a, b) <==> exists k :: 0 <= k <= |a| && k <= |b| && a[..k] == b[..k] && (k == |a| || (k < |b| && a[k] < b[k]))
  {
    if a == "" || b == "" || a[0] != b[0] {
      assert a[..0] == b[..0];
      if a != "" && b != "" && a[0] > b[0] {
        forall k | 0 < k <= |a| && k <= |b| ensures a[..k] != b[..k] { assert a[..k][0] != b[..k][0]; }
      }
    } else {
      LeqMeaning(a[1..], b[1..]);
      if k :| 0 <= k <= |a[1..]| && k <= |b[1..]| && a[1..][..k] == b[1..][..k]
              && (k == |a[1..]| || (k < |b[1..]| && a[1..][k] < b[1..][k])) {
        OneBehind(a, b, k);
      }
      if k :| 0 <= k <= |a| && k <= |b| && a[..k] == b[..k] && (k == |a| || (k < |b| && a[k] < b[k])) {
        assert k > 0;
        OneBehind(a, b, k - 1);
      }
    }
  }

  lemma OneBehind(a: string, b: string, k: nat)
    requires a != "" && b != "" && a[0] == b[0] && k + 1 <= |a| && k + 1 <= |b|
    ensures a[..k + 1] == b[..k + 1] <==> a[1..][..k] == b[1..][..k]
  {
    assert a[..k + 1] == [a[0]] + a[1..][..k] && b[..k + 1] == [b[0]] + b[1..][..k];
    if a[..k + 1] == b[..k + 1] {
      assert a[1..][..k] == a[..k + 1][1..] && b[1..][..k] == b[..k + 1][1..];
    }
  }

  lemma {:induction false} LeqTotal(a: string, b: string)
    ensures Leq(a, b) || Leq(b, a)
    ensures Leq(a, b) && Leq(b, a) ==> a == b
  {
    if a != "" && b != "" && a[0] == b[0] {
      LeqTotal(a[1..], b[1..]);
      if Leq(a, b) && Leq(b, a) {
        assert a == [a[0]] + a[1..] && b == [b[0]] + b[1..];
      }
    }
  }

  lemma {:induction false} LeqTransitive(a: string, b: string, c: string)
    requires Leq(a, b) && Leq(b, c)
    ensures Leq(a, c)
  {
    if a != "" && a[0] == b[0] && b[0] == c[0] {
      LeqTransitive(a[1..], b[1..], c[1..]);
    }
  }

  predicate IsLeast(m: string, methods: set<string>) { m in methods && forall k :: k in methods ==> Leq(m, k) }

  lemma {:induction false} HasLeast(methods: set<string>)
    requires methods != {}
    ensures exists m :: IsLeast(m, methods)
  {
    var x :| x in methods;
    LeqTotal(x, x);
    if methods == {x} {
      assert IsLeast(x, methods);
    } else {
      HasLeast(methods - {x});
      var m :| IsLeast(m, methods - {x});
      LeqTotal(x, m);
      if Leq(m, x) {
        assert IsLeast(m, methods);
      } else {
        forall k | k in methods ensures Leq(x, k) {
          if k != x { LeqTransitive(x, m, k); }
        }
        assert IsLeast(x, methods);
      }
    }
  }

  lemma LeastIsUnique(m: string, k: string, methods: set<string>)
    requires IsLeast(m, methods) && IsLeast(k, methods)
    ensures m == k
  {
    LeqTotal(m, k);
  }

  /** The methods in order. */
  ghost function Ascending(methods: set<string>): seq<string> {
    if methods == {} then [] else
      HasLeast(methods);
      var m :| IsLeast(m, methods);
      [m] + Ascending(methods - {m})
  }

  predicate StrictlyAscending(names: seq<string>) {
    forall i, j :: 0 <= i < j < |names| ==> Leq(names[i], names[j]) && names[i] != names[j]
  }

  function Names(names: seq<string>): set<string> { set n | n in names }

  /** Complete, sorted and free of duplicates. */
  lemma {:induction false} AscendingIsSorted(methods: set<string>)
    ensures var names := Ascending(methods); StrictlyAscending(names) && Names(names) == methods && |names| == |methods|
  {
    if methods != {} {
      HasLeast(methods);
      var m := Ascending(methods)[0];
      var rest := Ascending(methods - {m});
      AscendingIsSorted(methods - {m});
      assert Ascending(methods) == [m] + rest;
      PutFirst(m, rest, methods);
    }
  }

  lemma PutFirst(m: string, rest: seq<string>, methods: set<string>)
    requires IsLeast(m, methods) && StrictlyAscending(rest) && Names(rest) == methods - {m}
    ensures StrictlyAscending([m] + rest) && Names([m] + rest) == methods
  {
    var names := [m] + rest;
    forall k | k in rest ensures k in methods && Leq(m, k) && m != k { assert k in Names(rest); }
    forall i, j | 0 <= i < j < |names| ensures Leq(names[i], names[j]) && names[i] != names[j] {
      assert names[j] == rest[j - 1] && rest[j - 1] in rest;
      if i > 0 { assert names[i] == rest[i - 1]; }
    }
    forall k | k in methods ensures k in names {
      if k != m { assert k in Names(rest) && k in rest; }
    }
  }

  /** Nothing else is: the order in which the set is iterated does not matter. */
  lemma {:induction false} SortedIsUnique(names: seq<string>)
    requires StrictlyAscending(names)
    ensures Ascending(Names(names)) == names
  {
    var methods := Names(names);
    if names != [] {
      var first, tail := names[0], names[1..];
      LeqTotal(first, first);
      assert IsLeast(first, methods);
      HasLeast(methods);
      LeastIsUnique(first, Ascending(methods)[0], methods);
      assert names == [first] + tail;
      assert Names(tail) == methods - {first} by {
        forall k | k in methods && k != first ensures k in tail { assert k in [first] + tail; }
      }
      SortedIsUnique(tail);
    } else {
      assert methods == {};
    }
  }

  function Joined(names: seq<string>): string {
    if names == [] then "" else if |names| == 1 then names[0] else Joined(names[..|names| - 1]) + ", " + names[|names| - 1]
  }

  /** The header is left out for want of a value only when the single method is the empty name. */
  lemma JoinedIsEmpty(methods: set<string>)
    ensures Joined(Ascending(methods)) == "" <==> methods == {} || methods == {""}
  {
    var names := Ascending(methods);
    AscendingIsSorted(methods);
    if |names| == 1 {
      assert names == [names[0]];
      assert methods == {names[0]};
    }
  }

  /** `format_allow_header`: collects the set into a vector, sorts it and joins it. */
  method FormatAllowHeader(allowedMethods: set<string>) returns (value: string)
    ensures value == Joined(Ascending(allowedMethods))
  {
    if allowedMethods == {} {
      return "";
    }
    var sortedMethods := Sort(allowedMethods);
    value := "";
    for index := 0 to |sortedMethods|
      invariant value == Joined(sortedMethods[..index])
    {
      if index > 0 {
        value := value + ", ";
      }
      value := value + sortedMethods[index];
      JoinedSnoc(sortedMethods[..index], sortedMethods[index]);
      assert sortedMethods[..index + 1] == sortedMethods[..index] + [sortedMethods[index]];
    }
    assert sortedMethods[..|sortedMethods|] == sortedMethods;
  }

  lemma JoinedSnoc(names: seq<string>, last: string)
    ensures Joined(names + [last]) == (if names == [] then "" else Joined(names) + ", ") + last
  {
    assert (names + [last])[..|names|] == names;
  }

  method Sort(methods: set<string>) returns (names: seq<string>)
    ensures names == Ascending(methods)
  {
    names := [];
    var rest := methods;
    while rest != {}
      invariant names + Ascending(rest) == Ascending(methods)
      decreases rest
    {
      HasLeast(rest);
      var m :| IsLeast(m, rest);
      LeastIsUnique(m, Ascending(rest)[0], rest);
      ghost var tail := Ascending(rest - {m});
      assert Ascending(rest) == [m] + tail;
      assert names + ([m] + tail) == (names + [m]) + tail;
      names, rest := names + [m], rest - {m};
    }
  }
}
