/** Username normalization: Python's `strip()` followed by `lower()`.
    Whitespace follows `str.isspace()`; case mapping covers ASCII letters only. */
module Text {

  /** The code points for which Python's `str.isspace()` holds: the ASCII blanks and control
      separators, NEL, no-break space and the Unicode space and line/paragraph separators. */
  predicate IsSpace(c: char)
    ensures c == ' ' || c == '\t' || c == '\n' || c == '\r' ==> IsSpace(c)
    ensures 'A' <= c <= 'Z' || 'a' <= c <= 'z' || '0' <= c <= '9' || c == '_' ==> !IsSpace(c)
    ensures IsSpace(c) ==> 0x09 <= c as int <= 0x3000
  {
    var n := c as int;
    || n == 0x20
    || 0x09 <= n <= 0x0D
    || 0x1C <= n <= 0x1F
    || n == 0x85
    || n == 0xA0
    || n == 0x1680
    || 0x2000 <= n <= 0x200A
    || n == 0x2028
    || n == 0x2029
    || n == 0x202F
    || n == 0x205F
    || n == 0x3000
  }

  predicate IsUpper(c: char) {
    'A' <= c <= 'Z'
  }

  ghost predicate AllSpace(s: string) {
    forall k :: 0 <= k < |s| ==> IsSpace(s[k])
  }

  /** Neither end of `s` is whitespace: what `strip()` produces. */
  predicate IsStripped(s: string) {
    s == [] || (!IsSpace(s[0]) && !IsSpace(s[|s| - 1]))
  }

  /** Drops leading whitespace. */
  function TrimStart(s: string): (r: string)
    ensures |r| <= |s| && r == s[|s| - |r|..]
    ensures forall k :: 0 <= k < |s| - |r| ==> IsSpace(s[k])
    ensures r == [] || !IsSpace(r[0])
    decreases |s|
  {
    if |s| > 0 && IsSpace(s[0]) then
      var rest := s[1..];
      var r := TrimStart(rest);
      assert rest[|rest| - |r|..] == s[|s| - |r|..];
      assert forall k :: 0 <= k < |rest| - |r| ==> rest[k] == s[k + 1];
      r
    else
      s
  }

  /** Drops trailing whitespace. */
  function TrimEnd(s: string): (r: string)
    ensures |r| <= |s| && r == s[..|r|]
    ensures forall k :: |r| <= k < |s| ==> IsSpace(s[k])
    ensures r == [] || !IsSpace(r[|r| - 1])
    decreases |s|
  {
    if |s| > 0 && IsSpace(s[|s| - 1]) then
      var init := s[..|s| - 1];
      var r := TrimEnd(init);
      assert init[..|r|] == s[..|r|];
      assert forall k :: |r| <= k < |s| - 1 ==> IsSpace(init[k]);
      r
    else
      s
  }

  /** `str.strip()`: cuts the whitespace off both ends. */
  function Strip(s: string): (r: string)
    ensures IsStripped(r)
    ensures |r| <= |s|
  {
    TrimEnd(TrimStart(s))
  }

  /** What `Strip` removes is whitespace and nothing else: the result is the slice `s[i..j]`, and
      every character before `i` and from `j` on is whitespace. */
  lemma StripSlice(s: string) returns (i: nat, j: nat)
    ensures i <= j <= |s|
    ensures Strip(s) == s[i..j]
    ensures forall k :: 0 <= k < i ==> IsSpace(s[k])
    ensures forall k :: j <= k < |s| ==> IsSpace(s[k])
  {
    var t := TrimStart(s);
    i := |s| - |t|;
    var n := TrimEndCut(t);
    j := i + n;
    SliceOfSuffix(s, i, n);
  }

  /** `TrimEnd` keeps a prefix of its input and cuts off only whitespace. */
  lemma TrimEndCut(t: string) returns (n: nat)
    ensures n <= |t| && TrimEnd(t) == t[..n]
    ensures forall k :: n <= k < |t| ==> IsSpace(t[k])
  {
    n := |TrimEnd(t)|;
  }

  lemma SliceOfSuffix(s: string, i: nat, n: nat)
    requires i + n <= |s|
    ensures s[i..][..n] == s[i..i + n]
    ensures forall k :: i + n <= k < |s| ==> s[k] == s[i..][k - i]
  {
  }

  lemma {:induction false} TrimStartSpaces(a: string, x: string)
    requires AllSpace(a)
    requires x == [] || !IsSpace(x[0])
    ensures TrimStart(a + x) == x
    decreases |a|
  {
    if a != [] {
      assert (a + x)[0] == a[0];
      assert (a + x)[1..] == a[1..] + x;
      assert AllSpace(a[1..]) by {
        forall k | 0 <= k < |a| - 1
          ensures IsSpace(a[1..][k])
        {
          assert a[1..][k] == a[k + 1];
        }
      }
      TrimStartSpaces(a[1..], x);
    } else {
      assert a + x == x;
    }
  }

  lemma {:induction false} TrimEndSpaces(x: string, b: string)
    requires AllSpace(b)
    requires x == [] || !IsSpace(x[|x| - 1])
    ensures TrimEnd(x + b) == x
    decreases |b|
  {
    if b != [] {
      var init := b[..|b| - 1];
      assert (x + b)[|x + b| - 1] == b[|b| - 1];
      assert (x + b)[..|x + b| - 1] == x + init;
      assert AllSpace(init) by {
        forall k | 0 <= k < |init|
          ensures IsSpace(init[k])
        {
          assert init[k] == b[k];
        }
      }
      TrimEndSpaces(x, init);
    } else {
      assert x + b == x;
    }
  }

  /** `strip()` is determined by its contract: whatever whitespace surrounds a stripped string,
      stripping the whole gives that string back. */
  lemma {:induction false} StripUnique(a: string, t: string, b: string)
    requires AllSpace(a) && AllSpace(b) && IsStripped(t)
    ensures Strip(a + t + b) == t
  {
    if t == [] {
      var ab := a + b;
      assert a + t + b == ab + [];
      assert AllSpace(ab) by {
        forall k | 0 <= k < |ab|
          ensures IsSpace(ab[k])
        {
          if k < |a| {
            assert ab[k] == a[k];
          } else {
            assert ab[k] == b[k - |a|];
          }
        }
      }
      TrimStartSpaces(ab, []);
      assert TrimEnd([]) == [];
    } else {
      assert a + t + b == a + (t + b);
      TrimStartSpaces(a, t + b);
      TrimEndSpaces(t, b);
    }
  }

  function LowerChar(c: char): (d: char)
    ensures !IsUpper(d)
    ensures IsUpper(c) ==> d as int == c as int + 32
    ensures !IsUpper(c) ==> d == c
  {
    if IsUpper(c) then (c as int + 32) as char else c
  }

  /** `str.lower()` restricted to ASCII: every upper-case letter is replaced by its lower-case form. */
  function Lower(s: string): (r: string)
    ensures |r| == |s|
    ensures forall k :: 0 <= k < |s| ==> r[k] == LowerChar(s[k])
  {
    if s == [] then [] else [LowerChar(s[0])] + Lower(s[1..])
  }

  /** The key a username is stored under: `username.strip().lower()`. */
  function Normalize(username: string): (key: string)
    ensures IsStripped(key)
    ensures |key| <= |username|
    ensures forall k :: 0 <= k < |key| ==> !IsUpper(key[k])
  {
    var stripped := Strip(username);
    LowerStripped(stripped);
    Lower(stripped)
  }

  /** Lowering never turns a non-space character into whitespace or back. */
  lemma LowerCharKeepsSpace(c: char)
    ensures IsSpace(LowerChar(c)) <==> IsSpace(c)
  {
  }

  lemma LowerStripped(s: string)
    requires IsStripped(s)
    ensures IsStripped(Lower(s))
  {
    if s != [] {
      LowerCharKeepsSpace(s[0]);
      LowerCharKeepsSpace(s[|s| - 1]);
    }
  }

  /** Stripping a string that has no whitespace at either end changes nothing. */
  lemma StripStripped(s: string)
    requires IsStripped(s)
    ensures Strip(s) == s
  {
    assert TrimStart(s) == s;
    assert TrimEnd(s) == s;
  }

  lemma LowerLower(s: string)
    ensures Lower(Lower(s)) == Lower(s)
  {
    var once := Lower(s);
    var twice := Lower(once);
    assert |twice| == |once|;
    forall k | 0 <= k < |once|
      ensures twice[k] == once[k]
    {
      assert twice[k] == LowerChar(once[k]);
    }
  }

  /** Normalizing an already normalized key gives the key back. */
  lemma {:induction false} NormalizeIdempotent(username: string)
    ensures Normalize(Normalize(username)) == Normalize(username)
  {
    var key := Normalize(username);
    StripStripped(key);
    LowerLower(Strip(username));
  }

  /** Case and surrounding whitespace do not matter: `a + t + b` with whitespace `a` and `b` is
      stored under the same key as `t` and as `t` lower-cased, namely `Lower(t)`. */
  lemma {:induction false} NormalizeIgnoresCaseAndSpace(a: string, t: string, b: string)
    requires AllSpace(a) && AllSpace(b) && IsStripped(t)
    ensures Normalize(a + t + b) == Lower(t)
    ensures Normalize(t) == Lower(t)
    ensures Normalize(Lower(t)) == Lower(t)
  {
    StripUnique(a, t, b);
    assert Normalize(a + t + b) == Lower(t);
    StripStripped(t);
    assert Normalize(t) == Lower(t);
    NormalizeLowerStripped(t);
  }

  lemma NormalizeLowerStripped(t: string)
    requires IsStripped(t)
    ensures Normalize(Lower(t)) == Lower(t)
  {
    LowerStripped(t);
    StripStripped(Lower(t));
    LowerLower(t);
  }
}
