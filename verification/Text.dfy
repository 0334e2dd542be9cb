// Strings as the program orders and searches them: sequences of characters,
// compared lexicographically.
module Text {

  /** The three-way order strings.Compare and cmp.Compare give two strings. */
  function Compare(a: string, b: string): (r: int)
    ensures -1 <= r <= 1
    ensures r == 0 <==> a == b
  {
    if a == [] || b == [] then
      if |a| == |b| then 0 else if a == [] then -1 else 1
    else if a[0] != b[0] then
      if a[0] < b[0] then -1 else 1
    else
      assert a == [a[0]] + a[1..] && b == [b[0]] + b[1..];
      Compare(a[1..], b[1..])
  }

  /** They agree up to k, where a ends first or has the lesser character. */
  predicate Parts(a: string, b: string, k: int) {
    0 <= k <= |a| && k < |b| && a[..k] == b[..k] && (k == |a| || a[k] < b[k])
  }

  /** a comes before b in a dictionary. */
  ghost predicate Precedes(a: string, b: string) { exists k :: Parts(a, b, k) }

  lemma {:induction false} CompareIs(a: string, b: string)
    ensures Compare(a, b) < 0 <==> Precedes(a, b)
  {
    if a == [] || b == [] {
      assert a == [] && b != [] ==> Parts(a, b, 0);
    } else if a[0] != b[0] {
      PartsFirst(a, b);
    } else {
      CompareIs(a[1..], b[1..]);
      PrecedesNext(a, b);
    }
  }

  lemma PartsFirst(a: string, b: string)
    requires a != [] && b != [] && a[0] != b[0]
    ensures Precedes(a, b) <==> a[0] < b[0]
  {
    if a[0] < b[0] {
      assert Parts(a, b, 0);
    }
    if k :| Parts(a, b, k) {
      AgreeAtFirst(a, b, k);
    }
  }

  lemma AgreeAtFirst(a: string, b: string, k: int)
    requires Parts(a, b, k)
    ensures k > 0 ==> a[0] == b[0]
  {
    if k > 0 {
      assert a[..k][0] == a[0] && b[..k][0] == b[0];
    }
  }

  lemma PrecedesNext(a: string, b: string)
    requires a != [] && b != [] && a[0] == b[0]
    ensures Precedes(a, b) <==> Precedes(a[1..], b[1..])
  {
    if k :| Parts(a, b, k) {
      PartsNext(a, b, k - 1);
    }
    if k :| Parts(a[1..], b[1..], k) {
      PartsNext(a, b, k);
    }
  }

  lemma PartsNext(a: string, b: string, k: int)
    requires a != [] && b != [] && a[0] == b[0] && k >= 0
    ensures Parts(a, b, k + 1) <==> Parts(a[1..], b[1..], k)
  {
    if k < |a| && k < |b| {
      assert a[..k + 1] == [a[0]] + a[1..][..k] && b[..k + 1] == [b[0]] + b[1..][..k];
      assert a[1..][..k] == a[..k + 1][1..] && b[1..][..k] == b[..k + 1][1..];
    }
  }

  lemma {:induction false} CompareFlips(a: string, b: string)
    ensures Compare(a, b) == -Compare(b, a)
  {
    if a != [] && b != [] && a[0] == b[0] {
      CompareFlips(a[1..], b[1..]);
    }
  }

  lemma {:induction false} CompareTransitive(a: string, b: string, c: string)
    requires Compare(a, b) <= 0 && Compare(b, c) <= 0
    ensures Compare(a, c) <= 0
    ensures Compare(a, b) < 0 || Compare(b, c) < 0 ==> Compare(a, c) < 0
  {
    if a != [] && b != [] && c != [] && a[0] == b[0] && b[0] == c[0] {
      CompareTransitive(a[1..], b[1..], c[1..]);
    }
  }

  /** The code points strings.TrimSpace strips. */
  predicate IsSpace(c: char) {
    c in "\t\n\U{000b}\U{000c}\r \U{0085}\U{00a0}\U{1680}\U{2028}\U{2029}\U{202f}\U{205f}\U{3000}" ||
    '\U{2000}' <= c <= '\U{200a}'
  }

  /** The characters of Unicode's White_Space property. */
  lemma SpacesAre(c: char)
    ensures IsSpace(c) <==>
      '\t' <= c <= '\r' || c in {' ', '\U{0085}', '\U{00a0}', '\U{1680}'} ||
      '\U{2000}' <= c <= '\U{200a}' || c in {'\U{2028}', '\U{2029}', '\U{202f}', '\U{205f}', '\U{3000}'}
  {
  }

  predicate IsBlank(s: string) { forall i :: 0 <= i < |s| ==> IsSpace(s[i]) }

  function TrimLeft(s: string): string {
    if s == [] || !IsSpace(s[0]) then s else TrimLeft(s[1..])
  }

  function TrimRight(s: string): string {
    if s == [] || !IsSpace(s[|s| - 1]) then s else TrimRight(s[..|s| - 1])
  }

  function TrimSpace(s: string): string { TrimRight(TrimLeft(s)) }

  lemma {:induction false} TrimLeftCuts(s: string)
    ensures var cut := |s| - |TrimLeft(s)|;
      cut >= 0 && TrimLeft(s) == s[cut..] && IsBlank(s[..cut])
  {
    if s != [] && IsSpace(s[0]) {
      TrimLeftCuts(s[1..]);
      CutOneMore(s, s[1..], |s[1..]| - |TrimLeft(s[1..])|);
    }
  }

  lemma CutOneMore(s: string, rest: string, cut: nat)
    requires s != [] && rest == s[1..] && cut <= |rest| && IsSpace(s[0]) && IsBlank(rest[..cut])
    ensures IsBlank(s[..cut + 1]) && s[cut + 1..] == rest[cut..]
  {
    BlankNext(rest[..cut], s[0]);
    assert s[..cut + 1] == [s[0]] + rest[..cut];
  }

  lemma {:induction false} TrimRightCuts(s: string)
    ensures |TrimRight(s)| <= |s| && TrimRight(s) == s[..|TrimRight(s)|] && IsBlank(s[|TrimRight(s)|..])
  {
    if s != [] && IsSpace(s[|s| - 1]) {
      TrimRightCuts(s[..|s| - 1]);
      BlankBack(s, |TrimRight(s)|);
    }
  }

  lemma BlankBack(s: string, cut: nat)
    requires cut < |s| && IsSpace(s[|s| - 1]) && IsBlank(s[..|s| - 1][cut..])
    ensures IsBlank(s[cut..]) && s[..|s| - 1][..cut] == s[..cut]
  {
    BlankNext(s[..|s| - 1][cut..], s[|s| - 1]);
    assert s[cut..] == s[..|s| - 1][cut..] + [s[|s| - 1]];
  }

  lemma BlankNext(s: string, c: char)
    requires IsBlank(s) && IsSpace(c)
    ensures IsBlank(s + [c]) && IsBlank([c] + s)
  {
  }

  /** Trimming cuts white space off the two ends and nothing else; from is where
      what is left begins. */
  lemma TrimCuts(s: string) returns (from: nat)
    ensures var t := TrimSpace(s);
      from + |t| <= |s| && s[from..from + |t|] == t && IsBlank(s[..from]) && IsBlank(s[from + |t|..])
  {
    var left := TrimLeft(s);
    TrimLeftCuts(s);
    TrimRightCuts(left);
    from := |s| - |left|;
    CutTwice(s, from, |TrimSpace(s)|);
  }

  lemma CutTwice(s: string, from: nat, n: nat)
    requires from + n <= |s|
    ensures s[from..][..n] == s[from..from + n] && s[from..][n..] == s[from + n..]
  {
  }

  /** What is left when white space is cut off both ends of a text that begins and ends
      without any. */
  lemma TrimsTo(pre: string, block: string, post: string)
    requires IsBlank(pre) && IsBlank(post)
    requires block != "" && !IsSpace(block[0]) && !IsSpace(block[|block| - 1])
    ensures TrimSpace(pre + block + post) == block
  {
    LeftTrimsTo(pre, block + post);
    assert pre + block + post == pre + (block + post);
    RightTrimsTo(block, post);
  }

  lemma {:induction false} LeftTrimsTo(pre: string, rest: string)
    requires IsBlank(pre) && rest != "" && !IsSpace(rest[0])
    ensures TrimLeft(pre + rest) == rest
  {
    if pre == "" {
      assert pre + rest == rest;
    } else {
      assert (pre + rest)[1..] == pre[1..] + rest;
      LeftTrimsTo(pre[1..], rest);
    }
  }

  lemma {:induction false} RightTrimsTo(block: string, post: string)
    requires IsBlank(post) && block != "" && !IsSpace(block[|block| - 1])
    ensures TrimRight(block + post) == block
    decreases |post|
  {
    if post == "" {
      assert block + post == block;
    } else {
      var init := post[..|post| - 1];
      assert (block + post)[..|block + post| - 1] == block + init;
      RightTrimsTo(block, init);
    }
  }

  lemma BlankTrimsAway(s: string)
    ensures TrimSpace(s) == "" <==> IsBlank(s)
  {
    var from := TrimCuts(s);
    var t := TrimSpace(s);
    if t == "" {
      assert s == s[..from] + s[from..];
    } else if IsBlank(s) {
      EndsBare(s);
    }
  }

  lemma EndsBare(s: string)
    requires TrimSpace(s) != ""
    ensures !IsBlank(s)
  {
    var left := TrimLeft(s);
    TrimLeftCuts(s);
    TrimRightCuts(left);
    LeftStartsBare(s);
    assert left[0] == s[|s| - |left|];
  }

  lemma {:induction false} LeftStartsBare(s: string)
    ensures TrimLeft(s) == "" || !IsSpace(TrimLeft(s)[0])
  {
    if s != [] && IsSpace(s[0]) {
      LeftStartsBare(s[1..]);
    }
  }
}
