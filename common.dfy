/** Small helpers shared by the navigator and the editor: an Option type, the
    JavaScript notion of a "truthy" optional string, and the string predicates
    the components use (`endsWith`, `includes`). */
module Common {

  datatype Option<+T> = None | Some(value: T)

  /** A JavaScript value that is an optional string is truthy when it is
      present and not the empty string. */
  predicate Truthy(s: Option<string>)
  {
    s.Some? && s.value != ""
  }

  /** The result of the JavaScript expression `c0 || c1 || ... || fallback`
      over optional strings: the first truthy candidate, else the fallback. */
  function FirstTruthy(candidates: seq<Option<string>>, fallback: string): (r: string)
    ensures (forall k :: 0 <= k < |candidates| ==> !Truthy(candidates[k])) ==> r == fallback
    ensures forall k ::
              (0 <= k < |candidates| && Truthy(candidates[k]) &&
               forall j :: 0 <= j < k ==> !Truthy(candidates[j]))
              ==> r == candidates[k].value
  {
    if candidates == [] then fallback
    else if Truthy(candidates[0]) then candidates[0].value
    else FirstTruthy(candidates[1..], fallback)
  }

  /** `s.startsWith(prefix)` */
  predicate StartsWith(s: string, prefix: string)
  {
    |prefix| <= |s| && s[..|prefix|] == prefix
  }

  /** `s.endsWith(suffix)` (case-sensitive, as in JavaScript). */
  predicate EndsWith(s: string, suffix: string)
  {
    |suffix| <= |s| && s[|s| - |suffix|..] == suffix
  }

  /** `s.includes(w)`: w occurs at some position of s. */
  predicate Contains(s: string, w: string)
    decreases |s|
  {
    StartsWith(s, w) || (s != [] && Contains(s[1..], w))
  }

  /** `w` occurs in `s` starting at index `i`. */
  predicate OccursAt(s: string, w: string, i: nat)
  {
    i + |w| <= |s| && s[i..i + |w|] == w
  }

  /** `Contains` holds exactly when the word occurs at some index. */
  lemma {:induction false} ContainsIffOccurs(s: string, w: string)
    ensures Contains(s, w) <==> exists i: nat :: OccursAt(s, w, i)
    decreases |s|
  {
    if s == [] {
      if w == [] {
        assert OccursAt(s, w, 0);
      }
    } else {
      ContainsIffOccurs(s[1..], w);
      if exists i: nat :: OccursAt(s, w, i) {
        var i: nat :| OccursAt(s, w, i);
        if i == 0 {
          assert StartsWith(s, w);
        } else {
          assert s[1..][i - 1..i - 1 + |w|] == s[i..i + |w|];
          assert OccursAt(s[1..], w, i - 1);
        }
      }
      if Contains(s, w) {
        if StartsWith(s, w) {
          assert OccursAt(s, w, 0);
        } else {
          var i: nat :| OccursAt(s[1..], w, i);
          assert s[1..][i..i + |w|] == s[i + 1..i + 1 + |w|];
          assert OccursAt(s, w, i + 1);
        }
      }
    }
  }

  /** A string ending in a suffix agrees with it `k` characters from the
      end. */
  lemma EndsWithChar(s: string, suffix: string, k: nat)
    ensures EndsWith(s, suffix) && k < |suffix| ==>
              s[|s| - 1 - k] == suffix[|suffix| - 1 - k]
  {
    if EndsWith(s, suffix) && k < |suffix| {
      assert s[|s| - |suffix|..][|suffix| - 1 - k] == s[|s| - 1 - k];
    }
  }

  /** A string that does not contain the first character of a non-empty word
      does not contain the word. */
  lemma {:induction false} NotContainsWithoutFirstChar(s: string, w: string)
    requires w != [] && w[0] !in s
    ensures !Contains(s, w)
    decreases |s|
  {
    if s != [] {
      assert s[0] != w[0];
      assert !StartsWith(s, w);
      assert forall c :: c in s[1..] ==> c in s;
      NotContainsWithoutFirstChar(s[1..], w);
    }
  }

  /** Prefixing a string with text that does not contain the first character
      of a non-empty word neither creates nor destroys an occurrence of it. */
  lemma {:induction false} ContainsAfterPrefix(p: string, t: string, w: string)
    requires w != [] && w[0] !in p
    ensures Contains(p + t, w) <==> Contains(t, w)
    decreases |p|
  {
    if p != [] {
      assert (p + t)[0] == p[0] != w[0];
      assert !StartsWith(p + t, w);
      assert (p + t)[1..] == p[1..] + t;
      assert forall c :: c in p[1..] ==> c in p;
      ContainsAfterPrefix(p[1..], t, w);
    } else {
      assert p + t == t;
    }
  }
}
