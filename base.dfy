/** Identifiers, optional values, the ID allocator and the string helpers
    that every tool handler of the wiki store shares. */
module Base {

  /** Every table is keyed by a stringified sequential integer; the model keeps the integer. */
  type Id = nat

  datatype Option<T> = None | Some(value: T)

  /** The fixed literal timestamp every handler writes in place of a clock reading. */
  const Now: string := "2025-10-01T00:00:00"

  /** Python truthiness of an optional string argument: both None and "" mean "not given". */
  predicate Given(s: Option<string>)
  {
    s.Some? && s.value != ""
  }

  // ---------------------------------------------------------------------------
  // ID allocation
  // ---------------------------------------------------------------------------

  /** A finite, non-empty set of keys has a largest element. */
  lemma {:induction false} MaxKeyExists(keys: set<Id>)
    requires keys != {}
    ensures exists m :: m in keys && forall k :: k in keys ==> k <= m
  {
    var x :| x in keys;
    var rest := keys - {x};
    if rest == {} {
      assert keys == {x};
    } else {
      MaxKeyExists(rest);
      var m :| m in rest && forall k :: k in rest ==> k <= m;
      var w := if x <= m then m else x;
      forall k | k in keys
        ensures k <= w
      {
        if k != x {
          assert k in rest;
        }
      }
      assert w in keys;
    }
  }

  /** The largest key of a non-empty table. */
  function MaxKey(keys: set<Id>): (m: Id)
    requires keys != {}
    ensures m in keys
    ensures forall k :: k in keys ==> k <= m
  {
    MaxKeyExists(keys);
    var m :| m in keys && forall k :: k in keys ==> k <= m;
    m
  }

  /** `generate_id`: "1" for an empty table, otherwise one more than the largest
      numeric key. The result is therefore never a key already in use. */
  function GenerateId<V>(table: map<Id, V>): (id: Id)
    ensures id !in table
    ensures forall k :: k in table ==> k < id
    ensures table == map[] ==> id == 1
    ensures table != map[] ==> id - 1 in table
  {
    if table == map[] then 1 else MaxKey(table.Keys) + 1
  }

  // ---------------------------------------------------------------------------
  // Strings
  // ---------------------------------------------------------------------------

  function LowerChar(c: char): char
  {
    if 'A' <= c <= 'Z' then (c as int + 32) as char else c
  }

  /** `str.lower()`, restricted to the ASCII letters. */
  function Lower(s: string): (r: string)
    ensures |r| == |s|
    ensures forall i :: 0 <= i < |s| ==> r[i] == LowerChar(s[i])
  {
    if s == [] then [] else [LowerChar(s[0])] + Lower(s[1..])
  }

  /** `s.endswith(suffix)`. */
  predicate EndsWith(s: string, suffix: string)
  {
    |suffix| <= |s| && s[|s| - |suffix|..] == suffix
  }

  /** Python's `a < b` on str: code-point lexicographic order, a proper prefix first. */
  predicate Before(a: string, b: string)
  {
    |b| > 0 && (|a| == 0 || a[0] < b[0] || (a[0] == b[0] && Before(a[1..], b[1..])))
  }

  lemma {:induction false} BeforeIrreflexive(a: string)
    ensures !Before(a, a)
  {
    if |a| > 0 {
      BeforeIrreflexive(a[1..]);
    }
  }

  lemma {:induction false} BeforeAsymmetric(a: string, b: string)
    ensures !(Before(a, b) && Before(b, a))
  {
    if |a| > 0 && |b| > 0 && a[0] == b[0] {
      BeforeAsymmetric(a[1..], b[1..]);
    }
  }

  lemma {:induction false} BeforeTransitive(a: string, b: string, c: string)
    requires Before(a, b) && Before(b, c)
    ensures Before(a, c)
  {
    if |a| > 0 && a[0] == b[0] && b[0] == c[0] {
      BeforeTransitive(a[1..], b[1..], c[1..]);
    }
  }

  lemma {:induction false} BeforeTotal(a: string, b: string)
    ensures a == b || Before(a, b) || Before(b, a)
  {
    if |a| > 0 && |b| > 0 && a[0] == b[0] {
      BeforeTotal(a[1..], b[1..]);
      if a[1..] == b[1..] {
        assert a == [a[0]] + a[1..] && b == [b[0]] + b[1..];
      }
    }
  }
}
