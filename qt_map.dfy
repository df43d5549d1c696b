/** QMap<QString, QString> keeps its keys in ascending QString order, so
    QMap::key(value), which walks the map from its first entry, returns the
    least key that maps to `value`, and a default-constructed (empty) key
    when no entry has that value. */
module QtMap {

  /** QString ordering: lexicographic on the characters, a proper prefix
      before the longer string. QString compares UTF-16 code units and a
      `char` here is a code point; the two orders differ only between
      characters above U+FFFF and those in U+E000-U+FFFF, which the decimal
      subvolume ids used as keys never contain. */
  predicate LessEq(a: string, b: string)
    decreases |a|
  {
    |a| == 0 || (|b| > 0 && (a[0] < b[0] || (a[0] == b[0] && LessEq(a[1..], b[1..]))))
  }

  lemma {:induction false} LessEqTotal(a: string, b: string)
    ensures LessEq(a, b) || LessEq(b, a)
    decreases |a|
  {
    if |a| > 0 && |b| > 0 && a[0] == b[0] {
      LessEqTotal(a[1..], b[1..]);
    }
  }

  lemma {:induction false} LessEqAntisymmetric(a: string, b: string)
    requires LessEq(a, b) && LessEq(b, a)
    ensures a == b
    decreases |a|
  {
    if |a| > 0 {
      LessEqAntisymmetric(a[1..], b[1..]);
      assert a == [a[0]] + a[1..] && b == [b[0]] + b[1..];
    }
  }

  lemma {:induction false} LessEqTransitive(a: string, b: string, c: string)
    requires LessEq(a, b) && LessEq(b, c)
    ensures LessEq(a, c)
    decreases |a|
  {
    if |a| > 0 && a[0] == b[0] && b[0] == c[0] {
      LessEqTransitive(a[1..], b[1..], c[1..]);
    }
  }

  /** `k` is the least key of `m` whose value is `v`. */
  predicate IsLeastKey(m: map<string, string>, v: string, k: string) {
    k in m && m[k] == v && forall x | x in m && m[x] == v :: LessEq(k, x)
  }

  /** Every finite non-empty set of strings has a least element. */
  lemma {:induction false} LeastExists(s: set<string>)
    requires s != {}
    ensures exists k :: k in s && forall x | x in s :: LessEq(k, x)
    decreases |s|
  {
    var y :| y in s;
    var rest := s - {y};
    if rest == {} {
      assert s == {y};
      LessEqTotal(y, y);
    } else {
      LeastExists(rest);
      var k :| k in rest && forall x | x in rest :: LessEq(k, x);
      LessEqTotal(k, y);
      if LessEq(k, y) {
        assert forall x | x in s :: LessEq(k, x);
      } else {
        forall x | x in s ensures LessEq(y, x) {
          if x != y {
            LessEqTransitive(y, k, x);
          } else {
            LessEqTotal(y, y);
          }
        }
      }
    }
  }

  lemma LeastKeyUnique(m: map<string, string>, v: string)
    ensures forall a, b :: IsLeastKey(m, v, a) && IsLeastKey(m, v, b) ==> a == b
  {
    forall a, b | IsLeastKey(m, v, a) && IsLeastKey(m, v, b) ensures a == b {
      LessEqAntisymmetric(a, b);
    }
  }

  lemma LeastKeyExists(m: map<string, string>, v: string)
    requires exists x :: x in m && m[x] == v
    ensures exists k :: IsLeastKey(m, v, k)
  {
    var w :| w in m && m[w] == v;
    var holders := set x | x in m && m[x] == v;
    assert w in holders;
    LeastExists(holders);
    var k :| k in holders && forall x | x in holders :: LessEq(k, x);
    assert IsLeastKey(m, v, k);
  }

  /** QMap::key(value). */
  function Key(m: map<string, string>, v: string): (k: string)
    ensures (exists x :: x in m && m[x] == v) ==> IsLeastKey(m, v, k)
    ensures (forall x :: x in m ==> m[x] != v) ==> k == ""
  {
    if exists x | x in m :: m[x] == v then
      LeastKeyExists(m, v);
      LeastKeyUnique(m, v);
      var k :| IsLeastKey(m, v, k);
      k
    else ""
  }

  /** A lookup can only report a key that is absent from the map as the
      empty string; a non-empty answer is a key that maps to the value. */
  lemma KeyFound(m: map<string, string>, v: string)
    ensures Key(m, v) != "" ==> Key(m, v) in m && m[Key(m, v)] == v
    ensures (exists x :: x in m && m[x] == v && x != "") && "" !in m ==> Key(m, v) != ""
  {
  }
}
