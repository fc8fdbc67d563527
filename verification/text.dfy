/** The string operations the classifier relies on: lower-casing and
    substring search (`String.prototype.includes`). */
module Text {

  /** Lower-cases one character. Only the ASCII capitals are mapped. */
  function LowerChar(c: char): char
  {
    if 'A' <= c <= 'Z' then (c as int + 32) as char else c
  }

  function ToLower(s: string): string
  {
    seq(|s|, i requires 0 <= i < |s| => LowerChar(s[i]))
  }

  /** `k` occurs in `s` starting at position `i`. */
  predicate OccursAt(s: string, k: string, i: int)
  {
    0 <= i && i + |k| <= |s| && s[i..i + |k|] == k
  }

  /** `s.includes(k)`. */
  predicate Contains(s: string, k: string)
  {
    exists i | 0 <= i <= |s| - |k| :: OccursAt(s, k, i)
  }

  /** `ks.some(k => s.includes(k))`. */
  predicate ContainsAny(s: string, ks: seq<string>)
  {
    exists k | k in ks :: Contains(s, k)
  }

  /** A keyword without a blank occurs in `a + " " + b` exactly when it
      occurs in `a` or in `b`: no occurrence can straddle the blank. */
  lemma ContainsJoin(a: string, b: string, k: string)
    requires ' ' !in k
    ensures Contains(a + " " + b, k) <==> Contains(a, k) || Contains(b, k)
  {
    var s := a + " " + b;
    if Contains(s, k) {
      var i :| 0 <= i <= |s| - |k| && OccursAt(s, k, i);
      if i + |k| <= |a| {
        assert s[i..i + |k|] == a[i..i + |k|];
        assert OccursAt(a, k, i);
      } else if i >= |a| + 1 {
        var j := i - |a| - 1;
        assert s[|a| + 1..] == b;
        assert s[i..i + |k|] == s[|a| + 1..][j..j + |k|];
        assert OccursAt(b, k, j);
      } else {
        StraddleHitsBlank(a, b, k, i);
        assert false;
      }
    }
    if Contains(a, k) {
      var i :| 0 <= i <= |a| - |k| && OccursAt(a, k, i);
      assert s[i..i + |k|] == a[i..i + |k|];
      assert OccursAt(s, k, i);
    }
    if Contains(b, k) {
      var j :| 0 <= j <= |b| - |k| && OccursAt(b, k, j);
      var i := j + |a| + 1;
      assert s[|a| + 1..] == b;
      assert s[i..i + |k|] == b[j..j + |k|];
      assert OccursAt(s, k, i);
    }
  }

  /** An occurrence in `a + " " + b` that covers the joining position
      matches the blank with one of its own characters. */
  lemma StraddleHitsBlank(a: string, b: string, k: string, i: int)
    requires OccursAt(a + " " + b, k, i)
    requires i <= |a| < i + |k|
    ensures k[|a| - i] == ' '
  {
    var s := a + " " + b;
    assert k[|a| - i] == s[i..i + |k|][|a| - i] == s[|a|];
  }

  /** `ContainsJoin` lifted to a keyword list. */
  lemma ContainsAnyJoin(a: string, b: string, ks: seq<string>)
    requires forall k | k in ks :: ' ' !in k
    ensures ContainsAny(a + " " + b, ks) <==> ContainsAny(a, ks) || ContainsAny(b, ks)
  {
    forall k | k in ks
      ensures Contains(a + " " + b, k) <==> Contains(a, k) || Contains(b, k)
    {
      ContainsJoin(a, b, k);
    }
  }


  /** Every character of an occurring keyword occurs in the text; so a
      keyword with a character the text lacks does not occur in it. */
  lemma OccurringKeywordChars(s: string, k: string, j: nat)
    requires j < |k|
    ensures Contains(s, k) ==> k[j] in s
  {
    if Contains(s, k) {
      var i :| 0 <= i <= |s| - |k| && OccursAt(s, k, i);
      assert s[i + j] == s[i..i + |k|][j];
    }
  }
}
