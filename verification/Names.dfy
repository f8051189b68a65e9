/** Fixed-width directory names (string.c, fs.c): at most 14 bytes, padded with NULs. */
module Names {
  import opened FsDisk

  const DIRSIZ := 14

  /** n bytes can be read from s, or a NUL comes before its end. */
  ghost predicate Readable(s: seq<Byte>, n: nat) {
    n <= |s| || exists i :: 0 <= i < |s| && s[i] == 0
  }

  /** The length of the string at s, counting at most n. */
  function Length(s: seq<Byte>, i: nat, n: nat): (k: nat)
    requires Readable(s, n) && i <= n && forall j :: 0 <= j < i && j < |s| ==> s[j] != 0
    ensures i <= k <= n && k <= |s| && (forall j :: 0 <= j < k ==> s[j] != 0) && (k < n ==> k < |s| && s[k] == 0)
    decreases n - i
  {
    if i == n || s[i] == 0 then i else Length(s, i + 1, n)
  }

  /** The name stored in or passed as s: its bytes up to a NUL, at most 14 of them. */
  function Key(s: seq<Byte>): (k: seq<Byte>)
    requires Readable(s, DIRSIZ)
    ensures |k| <= 14 && k <= s && (forall j :: 0 <= j < |k| ==> k[j] != 0) && (|k| < 14 ==> |k| < |s| && s[|k|] == 0)
  {
    s[..Length(s, 0, DIRSIZ)]
  }

  lemma Longer(p: seq<Byte>, i: nat)
    requires Readable(p, DIRSIZ) && i <= |Key(p)| && i < DIRSIZ && i < |p| && p[i] != 0
    ensures i + 1 <= |Key(p)|
  {
  }

  lemma SameSoFar(p: seq<Byte>, q: seq<Byte>, i: nat)
    requires i < |p| && i < |q| && p[..i] == q[..i] && p[i] == q[i]
    ensures p[..i + 1] == q[..i + 1]
  {
    assert p[..i + 1] == p[..i] + [p[i]] && q[..i + 1] == q[..i] + [q[i]];
  }

  /** Where two names first differ, or the first one ends. */
  lemma Decided(p: seq<Byte>, q: seq<Byte>, i: nat)
    requires Readable(p, DIRSIZ) && Readable(q, DIRSIZ) && i < DIRSIZ && i <= |Key(p)| && i <= |Key(q)| && p[..i] == q[..i]
    requires p[i] == 0 || p[i] != q[i]
    ensures p[i] == q[i] <==> Key(p) == Key(q)
  {
    if p[i] == q[i] {
      assert |Key(p)| == i == |Key(q)|;
    } else if |Key(p)| > i {
      assert |Key(q)| > i ==> Key(p)[i] != Key(q)[i];
    }
  }

  /** namecmp is 0 exactly when the two names are the same; p and q are the memory from two pointers. */
  method Namecmp(p: seq<Byte>, q: seq<Byte>) returns (r: int)
    requires Readable(p, DIRSIZ) && Readable(q, DIRSIZ)
    ensures r == 0 <==> Key(p) == Key(q)
  {
    var i, n := 0, DIRSIZ;
    while n > 0 && p[i] != 0 && p[i] == q[i]
      invariant n + i == DIRSIZ && i <= |Key(p)| && i <= |Key(q)| && p[..i] == q[..i]
    {
      Longer(p, i);
      Longer(q, i);
      SameSoFar(p, q, i);
      n, i := n - 1, i + 1;
    }
    if n == 0 {
      assert Key(p) == p[..i] && Key(q) == q[..i];
      return 0;
    }
    Decided(p, q, i);
    var a: int, b: int := p[i], q[i];
    r := a - b;
  }

  /** name padded with NULs. */
  function Padded(name: seq<Byte>): (r: seq<Byte>)
    requires Readable(name, DIRSIZ)
    ensures |r| == DIRSIZ
  {
    Key(name) + seq(DIRSIZ - |Key(name)|, _ => 0)
  }

  lemma PaddedKey(name: seq<Byte>)
    requires Readable(name, DIRSIZ)
    ensures Key(Padded(name)) == Key(name)
  {
    var p, k := Padded(name), Key(name);
    assert p[..|k|] == k;
    assert |k| < DIRSIZ ==> p[|k|] == 0;
  }

  /** strncpy(s, name, DIRSIZ) into a 14-byte field. */
  method Strncpy(name: seq<Byte>) returns (s: seq<Byte>)
    requires Readable(name, DIRSIZ)
    ensures s == Padded(name) && |s| == 14 && forall i :: 0 <= i < 14 ==> s[i] == if i < |Key(name)| then name[i] else 0
  {
    s := [];
    var n := DIRSIZ;
    var stop := false;
    while n > 0 && !stop
      invariant 0 <= n <= DIRSIZ && |s| + n == DIRSIZ
      invariant if stop then |Key(name)| < |s| && s == Padded(name)[..|s|] else |s| <= |Key(name)| && s == name[..|s|]
      decreases n, !stop
    {
      stop := name[|s|] == 0;
      s := s + [name[|s|]];
      n := n - 1;
    }
    while n > 0
      invariant 0 <= n && |s| + n == DIRSIZ && s == Padded(name)[..|s|] && (n > 0 ==> |Key(name)| < |s|)
    {
      s := s + [0];
      n := n - 1;
    }
  }
}
