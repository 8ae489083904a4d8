/**
 * Python's ordering of `str` values (code point by code point, a proper prefix first),
 * which `groupby` uses to sort its keys, and insertion into a strictly sorted key list.
 */
module TextOrder {

  predicate Before(a: string, b: string) {
    if |a| == 0 then |b| > 0
    else if |b| == 0 then false
    else if a[0] != b[0] then a[0] < b[0]
    else Before(a[1..], b[1..])
  }

  lemma {:induction false} BeforeIrreflexive(a: string)
    ensures !Before(a, a)
  {
    if |a| > 0 {
      BeforeIrreflexive(a[1..]);
    }
  }

  lemma {:induction false} BeforeTransitive(a: string, b: string, c: string)
    requires Before(a, b) && Before(b, c)
    ensures Before(a, c)
  {
    if |a| > 0 && |b| > 0 && |c| > 0 && a[0] == b[0] && b[0] == c[0] {
      BeforeTransitive(a[1..], b[1..], c[1..]);
    }
  }

  lemma {:induction false} BeforeTotal(a: string, b: string)
    ensures a == b || Before(a, b) || Before(b, a)
  {
    if |a| > 0 && |b| > 0 && a[0] == b[0] {
      BeforeTotal(a[1..], b[1..]);
      if a[1..] == b[1..] {
        assert a == [a[0]] + a[1..] && b == [b[0]] + b[1..];
      }
    }
  }

  ghost predicate StrictlySorted(s: seq<string>) {
    forall i, j :: 0 <= i < j < |s| ==> Before(s[i], s[j])
  }

  lemma SortedHasNoDuplicates(s: seq<string>, i: nat, j: nat)
    requires StrictlySorted(s)
    requires i < j < |s|
    ensures s[i] != s[j]
  {
    BeforeIrreflexive(s[i]);
  }

  /** Adds a key to a strictly sorted key list, unless it is already there. */
  function Insert(keys: seq<string>, d: string): (r: seq<string>)
    requires StrictlySorted(keys)
    ensures StrictlySorted(r)
    ensures forall x :: x in r <==> x in keys || x == d
    ensures |r| == if d in keys then |keys| else |keys| + 1
  {
    if |keys| == 0 then [d]
    else if d == keys[0] then keys
    else if Before(d, keys[0]) then
      forall j | 0 < j < |keys| ensures Before(d, keys[j]) {
        BeforeTransitive(d, keys[0], keys[j]);
      }
      BeforeIrreflexive(d);
      [d] + keys
    else
      var rest := Insert(keys[1..], d);
      assert d in keys <==> d in keys[1..] by {
        assert keys == [keys[0]] + keys[1..];
      }
      BeforeTotal(d, keys[0]);
      assert forall x :: x in rest ==> Before(keys[0], x) by {
        forall x | x in rest ensures Before(keys[0], x) {
          if x != d {
            var j :| 0 <= j < |keys[1..]| && keys[1..][j] == x;
            assert keys[j + 1] == x;
          }
        }
      }
      [keys[0]] + rest
  }
}
