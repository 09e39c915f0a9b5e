// Strings as the Go standard library orders and prints them.
module Text {

  // ---- Order of strings -------------------------------------------------------
  // Go compares strings byte by byte. Strings decoded from JSON are valid UTF-8, and on
  // valid UTF-8 the byte order is the order of the code points.

  // The order itself: a is a proper prefix of b, or smaller at the first character that differs.
  ghost predicate Precedes(a: string, b: string) {
    (|a| < |b| && a == b[..|a|]) || exists i :: 0 <= i < |a| && i < |b| && a[..i] == b[..i] && a[i] < b[i]
  }

  // How it is decided, character by character.
  predicate Less(a: string, b: string) {
    if a == [] || b == [] then a == [] && b != []
    else if a[0] == b[0] then Less(a[1..], b[1..])
    else a[0] < b[0]
  }

  lemma {:induction false} LessIff(a: string, b: string)
    ensures Less(a, b) <==> Precedes(a, b)
    decreases |a|
  {
    if a != [] && b != [] && a[0] == b[0] {
      LessIff(a[1..], b[1..]);
      SameHead(a, b);
    } else if a != [] && b != [] && a[0] < b[0] {
      assert a[..0] == b[..0];
    } else if a != [] && b != [] {
      HeadDecides(a, b);
    }
  }

  lemma HeadDecides(a: string, b: string)
    requires a != [] && b != [] && a[0] > b[0]
    ensures !Precedes(a, b)
  {
    assert forall i :: 0 < i <= |a| ==> a[..i][0] == a[0];
    assert forall i :: 0 < i <= |b| ==> b[..i][0] == b[0];
  }

  // A common first character plays no part.
  lemma SameHead(a: string, b: string)
    requires a != [] && b != [] && a[0] == b[0]
    ensures Precedes(a[1..], b[1..]) <==> Precedes(a, b)
  {
    var x, y := a[1..], b[1..];
    SamePrefix(a, b, |a| - 1);
    assert a[..|a|] == a && x[..|x|] == x;
    forall i | 0 <= i < |x| && i < |y|
      ensures x[..i] == y[..i] && x[i] < y[i] <==> a[..i + 1] == b[..i + 1] && a[i + 1] < b[i + 1]
    {
      SamePrefix(a, b, i);
    }
    if i :| 0 <= i < |a| && i < |b| && a[..i] == b[..i] && a[i] < b[i] {
      assert i > 0 && x[..i - 1] == y[..i - 1] && x[i - 1] < y[i - 1];
    }
  }

  lemma SamePrefix(a: string, b: string, i: nat)
    requires a != [] && b != [] && a[0] == b[0] && i < |a|
    ensures i < |b| ==> (a[1..][..i] == b[1..][..i] <==> a[..i + 1] == b[..i + 1])
  {
    if i < |b| {
      assert a[..i + 1] == [a[0]] + a[1..][..i] && b[..i + 1] == [b[0]] + b[1..][..i];
      assert a[..i + 1][1..] == a[1..][..i] && b[..i + 1][1..] == b[1..][..i];
    }
  }

  lemma {:induction false} LessIsStrictOrder(a: string, b: string, c: string)
    ensures !Less(a, a)
    ensures Less(a, b) && Less(b, c) ==> Less(a, c)
    ensures Less(a, b) || a == b || Less(b, a)
    decreases |a| + |b| + |c|
  {
    if a != [] {
      LessIsStrictOrder(a[1..], if b == [] then [] else b[1..], if c == [] then [] else c[1..]);
    }
    if a != [] && b != [] && a[0] == b[0] && a[1..] == b[1..] {
      assert a == [a[0]] + a[1..] == b;
    }
  }

  lemma PrecedesIsStrictOrder(a: string, b: string, c: string)
    ensures !Precedes(a, a)
    ensures Precedes(a, b) && Precedes(b, c) ==> Precedes(a, c)
    ensures Precedes(a, b) || a == b || Precedes(b, a)
  {
    hide Precedes, Less;
    LessIsStrictOrder(a, b, c);
    LessIff(a, a);
    LessIff(a, b);
    LessIff(b, a);
    LessIff(b, c);
    LessIff(a, c);
  }

  // ---- Sorted keys of a map ----------------------------------------------------

  ghost predicate Sorted(keys: seq<string>) {
    forall i, j :: 0 <= i < j < |keys| ==> Precedes(keys[i], keys[j])
  }

  predicate IsLeast(k: string, keys: set<string>) {
    k in keys && forall x :: x in keys && x != k ==> Less(k, x)
  }

  lemma {:induction false} LeastExists(keys: set<string>)
    requires keys != {}
    ensures exists k :: IsLeast(k, keys)
  {
    var k :| k in keys;
    var rest := keys - {k};
    if rest == {} {
      assert keys == {k};
      assert IsLeast(k, keys);
    } else {
      LeastExists(rest);
      var m :| IsLeast(m, rest);
      if Less(m, k) {
        assert IsLeast(m, keys);
      } else {
        forall x | x in rest ensures Less(k, x) {
          LessIsStrictOrder(k, m, x);
        }
        assert IsLeast(k, keys);
      }
    }
  }

  lemma LeastIsUnique(k: string, l: string, keys: set<string>)
    requires IsLeast(k, keys) && IsLeast(l, keys)
    ensures k == l
  {
    LessIsStrictOrder(k, l, k);
  }

  lemma LeastPrecedes(k: string, keys: set<string>)
    requires IsLeast(k, keys)
    ensures forall x :: x in keys && x != k ==> Precedes(k, x)
  {
    hide Precedes, Less;
    forall x | x in keys && x != k ensures Precedes(k, x) { LessIff(k, x); }
  }

  function Least(keys: set<string>): (k: string)
    requires keys != {}
    ensures IsLeast(k, keys)
  {
    LeastExists(keys);
    assert forall k, l | IsLeast(k, keys) && IsLeast(l, keys) :: k == l by {
      forall k, l | IsLeast(k, keys) && IsLeast(l, keys) ensures k == l { LeastIsUnique(k, l, keys); }
    }
    var k :| IsLeast(k, keys);
    k
  }

  // What collecting the keys of a map and sorting them yields: every key once, in order.
  function SortedKeys(keys: set<string>): (sorted: seq<string>)
    ensures forall k :: k in sorted <==> k in keys
    ensures |sorted| == |keys|
    ensures Sorted(sorted)
  {
    if keys == {} then []
    else
      var k := Least(keys);
      LeastPrecedes(k, keys);
      hide Precedes, Less;
      [k] + SortedKeys(keys - {k})
  }

  lemma SortedHasNoDuplicates(keys: seq<string>)
    requires Sorted(keys)
    ensures forall i, j :: 0 <= i < j < |keys| ==> keys[i] != keys[j]
  {
    hide Precedes;
    forall i, j | 0 <= i < j < |keys| ensures keys[i] != keys[j] {
      PrecedesIsStrictOrder(keys[i], keys[j], keys[i]);
    }
  }

  lemma SortedTail(keys: seq<string>)
    requires Sorted(keys) && keys != []
    ensures Sorted(keys[1..]) && keys[0] !in keys[1..] && keys == [keys[0]] + keys[1..]
  {
    SortedHasNoDuplicates(keys);
  }

  // ---- Decimal numerals (strconv.Itoa) -------------------------------------------

  function Digit(d: nat): (c: char)
    requires d < 10
    ensures '0' <= c <= '9'
  {
    '0' + d as char
  }

  function Itoa(n: nat): (s: string)
    ensures s != [] && forall c :: c in s ==> '0' <= c <= '9'
  {
    if n < 10 then [Digit(n)] else Itoa(n / 10) + [Digit(n % 10)]
  }

  // Decimal notation: the ten digits, and tens before ones.
  lemma ItoaIsDecimal(n: nat)
    ensures n < 10 ==> Itoa(n) == ["0", "1", "2", "3", "4", "5", "6", "7", "8", "9"][n]
    ensures n >= 10 ==> Itoa(n) == Itoa(n / 10) + Itoa(n % 10)
  {
  }

  lemma {:induction false} ItoaIsInjective(m: nat, n: nat)
    requires Itoa(m) == Itoa(n)
    ensures m == n
  {
    var s, t := Itoa(m), Itoa(n);
    assert s[|s| - 1] == Digit(m % 10) && t[|t| - 1] == Digit(n % 10);
    assert m % 10 == n % 10;
    if m >= 10 && n >= 10 {
      assert s[..|s| - 1] == Itoa(m / 10) && t[..|t| - 1] == Itoa(n / 10);
      ItoaIsInjective(m / 10, n / 10);
    }
  }
}
