/** File names as the image builder packs them and as the kernel shows them:
    strings of ASCII bytes, folded to upper case. */
module FatNames {
  import opened Bytes

  type Name = seq<byte>

  const DOT: byte := 46
  const SPACE: byte := 32

  function UpperByte(c: byte): byte {
    if 97 <= c <= 122 then c - 32 else c
  }

  function Upper(n: Name): (u: Name)
    ensures |u| == |n|
    ensures forall k :: 0 <= k < |n| ==> u[k] == UpperByte(n[k])
  {
    seq(|n|, k requires 0 <= k < |n| => UpperByte(n[k]))
  }

  /** `u` is `c` with an ASCII letter in upper case. */
  predicate Folds(c: byte, u: byte) {
    !(97 <= u <= 122) && (u == c || (97 <= c <= 122 && u == c - 32))
  }

  /** Folding turns lower-case ASCII letters into upper case and changes nothing else. */
  lemma UpperFolds(n: Name, k: nat)
    requires k < |n|
    ensures |Upper(n)| == |n| && Folds(n[k], Upper(n)[k])
  {
  }

  /** The same byte, or the two cases of one ASCII letter. */
  predicate SameLetter(a: byte, b: byte) {
    a == b || (97 <= a <= 122 && b == a - 32) || (97 <= b <= 122 && a == b - 32)
  }

  /** Two names that differ at most in ASCII case. */
  predicate SameName(a: Name, b: Name) {
    |a| == |b| && forall k :: 0 <= k < |a| ==> SameLetter(a[k], b[k])
  }

  /** Names are folded to the same name if and only if they differ at most in ASCII case. */
  lemma SameNameIff(a: Name, b: Name)
    ensures SameName(a, b) <==> Upper(a) == Upper(b)
  {
    hide UpperByte;
    if |a| == |b| {
      forall k | 0 <= k < |a|
        ensures SameLetter(a[k], b[k]) <==> Upper(a)[k] == Upper(b)[k]
      {
        UpperFolds(a, k);
        UpperFolds(b, k);
      }
    }
  }

  lemma UpperTwice(n: Name)
    ensures Upper(Upper(n)) == Upper(n)
  {
  }

  /** Upper case leaves dots and white space where they are. */
  lemma UpperKeepsMarks(n: Name, k: nat)
    requires k < |n|
    ensures Upper(n)[k] == DOT <==> n[k] == DOT
    ensures White(Upper(n)[k]) <==> White(n[k])
  {
  }

  predicate White(c: byte) {
    9 <= c <= 13 || c == SPACE
  }

  function TrimEnd(s: Name): Name {
    if s != [] && White(s[|s| - 1]) then TrimEnd(s[..|s| - 1]) else s
  }

  function TrimStart(s: Name): Name {
    if s != [] && White(s[0]) then TrimStart(s[1..]) else s
  }

  function Trim(s: Name): Name {
    TrimStart(TrimEnd(s))
  }

  /** Trimming removes nothing from this string. */
  predicate Tight(s: Name) {
    s != [] ==> !White(s[0]) && !White(s[|s| - 1])
  }

  function FirstDot(n: Name): (k: nat)
    ensures k <= |n|
    ensures k < |n| ==> n[k] == DOT
    ensures DOT !in n[..k]
  {
    if n == [] || n[0] == DOT then 0
    else
      assert n[..1 + FirstDot(n[1..])] == n[..1] + n[1..][..FirstDot(n[1..])];
      1 + FirstDot(n[1..])
  }

  function BeforeDot(n: Name): (b: Name)
    ensures DOT !in b && |b| <= |n|
  {
    n[..FirstDot(n)]
  }

  function AfterDot(n: Name): Name {
    if FirstDot(n) < |n| then n[FirstDot(n) + 1..] else []
  }

  function Prefix(s: Name, width: nat): Name {
    if |s| <= width then s else s[..width]
  }

  /** `width` bytes of a directory entry: cut or padded on the right with spaces. */
  function Field(s: Name, width: nat): (f: Name)
    ensures |f| == width
  {
    var cut := Prefix(s, width);
    cut + seq(width - |cut|, _ => SPACE)
  }

  /** The 11-byte name that the builder stores: the first two dot-separated parts. */
  function Packed(n: Name): (raw: Name)
    ensures |raw| == 11
  {
    Field(BeforeDot(Upper(n)), 8) + Field(BeforeDot(AfterDot(Upper(n))), 3)
  }

  /** The name that the kernel shows for, and compares with, an 11-byte entry name. */
  function Display(raw: Name): Name
    requires |raw| == 11
  {
    var base, ext := Trim(raw[..8]), Trim(raw[8..]);
    if ext == [] then base else base + [DOT] + ext
  }

  lemma FieldByte(s: Name, width: nat, k: nat)
    requires k < width
    ensures Field(s, width)[k] == if k < |s| then s[k] else SPACE
  {
  }

  /** A part of a name, up to its next dot, folded into a field. */
  lemma PartByte(s: Name, width: nat, k: nat)
    requires k < width
    ensures var f := Field(BeforeDot(Upper(s)), width);
      if k < FirstDot(s) then Folds(s[k], f[k]) else f[k] == 32
  {
    hide FirstDot, Field, Upper, Folds;
    UpperFirstDot(s);
    FieldByte(BeforeDot(Upper(s)), width, k);
    if k < FirstDot(s) {
      UpperFolds(s, k);
    }
  }

  /** A packed name, byte by byte: the first eight bytes before the first dot and the first
      three between it and the next one, in upper case, and spaces where these are shorter. */
  lemma PackedBytes(n: Name, k: nat)
    requires k < 11
    ensures var e := AfterDot(n);
      if k < 8 then if k < FirstDot(n) then Folds(n[k], Packed(n)[k]) else Packed(n)[k] == 32
      else if k - 8 < FirstDot(e) then Folds(e[k - 8], Packed(n)[k]) else Packed(n)[k] == 32
  {
    hide FirstDot, Field, Upper, Folds, BeforeDot, AfterDot;
    UpperAfterDot(n);
    if k < 8 {
      PartByte(n, 8, k);
    } else {
      PartByte(AfterDot(n), 3, k - 8);
    }
  }

  lemma UpperAfterDot(n: Name)
    ensures AfterDot(Upper(n)) == Upper(AfterDot(n))
  {
    hide FirstDot, UpperByte;
    UpperFirstDot(n);
  }

  lemma {:induction false} TrimEndFacts(s: Name)
    ensures TrimEnd(s) <= s
    ensures TrimEnd(s) == s <==> s == [] || !White(s[|s| - 1])
    ensures TrimEnd(s) == [] || !White(TrimEnd(s)[|TrimEnd(s)| - 1])
  {
    if s != [] && White(s[|s| - 1]) {
      TrimEndFacts(s[..|s| - 1]);
    }
  }

  lemma {:induction false} TrimStartFacts(s: Name)
    ensures |TrimStart(s)| <= |s| && TrimStart(s) == s[|s| - |TrimStart(s)|..]
    ensures TrimStart(s) == s <==> s == [] || !White(s[0])
    ensures TrimStart(s) == [] || !White(TrimStart(s)[0])
  {
    if s != [] && White(s[0]) {
      TrimStartFacts(s[1..]);
    }
  }

  lemma {:induction false} TrimEndRemoves(s: Name, k: nat)
    requires |TrimEnd(s)| <= k < |s|
    ensures White(s[k])
  {
    if s != [] && White(s[|s| - 1]) && k < |s| - 1 {
      TrimEndRemoves(s[..|s| - 1], k);
    }
  }

  lemma {:induction false} TrimStartRemoves(s: Name, k: nat)
    requires k + |TrimStart(s)| < |s|
    ensures White(s[k])
  {
    if s != [] && White(s[0]) && k > 0 {
      TrimStartRemoves(s[1..], k - 1);
    }
  }

  /** Trimming cuts the white space at both ends, which is space, tab, line feed, vertical
      tab, form feed and carriage return, and stops at the first other byte. */
  lemma TrimmedMiddle(s: Name) returns (lo: nat, hi: nat)
    ensures lo <= hi <= |s| && Trim(s) == s[lo..hi]
    ensures forall k :: 0 <= k < lo || hi <= k < |s| ==> s[k] == 32 || 9 <= s[k] <= 13
    ensures lo < hi ==> s[lo] != 32 && !(9 <= s[lo] <= 13) && s[hi - 1] != 32 && !(9 <= s[hi - 1] <= 13)
  {
    hide TrimEnd, TrimStart, White;
    var cut := TrimEnd(s);
    TrimEndFacts(s);
    TrimStartFacts(cut);
    hi := |cut|;
    lo := hi - |Trim(s)|;
    forall k | 0 <= k < lo || hi <= k < |s|
      ensures White(s[k])
    {
      if k < lo {
        TrimStartRemoves(cut, k);
      } else {
        TrimEndRemoves(s, k);
      }
    }
    WhiteBytes();
    EndsAre(s, cut, lo, hi);
  }

  lemma WhiteBytes()
    ensures forall c: byte {:trigger White(c)} :: White(c) <==> c == 32 || 9 <= c <= 13
  {
  }

  /** A part of a part, in the whole. */
  lemma EndsAre(s: Name, cut: Name, lo: nat, hi: nat)
    requires cut <= s && lo <= hi == |cut|
    ensures cut[lo..] == s[lo..hi]
    ensures lo < hi ==> cut[lo..][0] == s[lo] && cut[hi - 1] == s[hi - 1] && cut[lo..][hi - lo - 1] == s[hi - 1]
  {
  }

  lemma TrimFacts(s: Name)
    ensures |Trim(s)| <= |s|
    ensures |Trim(s)| == |s| ==> Trim(s) == s
    ensures Trim(s) == s <==> Tight(s)
    ensures DOT !in s ==> DOT !in Trim(s)
  {
    hide TrimEnd, TrimStart;
    TrimEndFacts(s);
    TrimStartFacts(TrimEnd(s));
  }

  lemma {:induction false} TrimPadding(s: Name, n: nat)
    ensures TrimEnd(s + seq(n, _ => SPACE)) == TrimEnd(s)
  {
    var t := s + seq(n, _ => SPACE);
    if n == 0 {
      assert t == s;
    } else {
      assert t[..|t| - 1] == s + seq(n - 1, _ => SPACE);
      TrimPadding(s, n - 1);
    }
  }

  /** What the kernel shows for a packed name. */
  lemma DisplayOfPacked(n: Name)
    ensures var base, ext := Trim(Prefix(BeforeDot(Upper(n)), 8)), Trim(Prefix(BeforeDot(AfterDot(Upper(n))), 3));
            Display(Packed(n)) == if ext == [] then base else base + [DOT] + ext
  {
    hide Upper, BeforeDot, AfterDot, Prefix;
    var b, e := BeforeDot(Upper(n)), BeforeDot(AfterDot(Upper(n)));
    assert Packed(n)[..8] == Field(b, 8) && Packed(n)[8..] == Field(e, 3);
    TrimPadding(Prefix(b, 8), 8 - |Prefix(b, 8)|);
    TrimPadding(Prefix(e, 3), 3 - |Prefix(e, 3)|);
  }

  /** A name that fits the 8.3 format: one dot at most, no empty extension after it,
      and no white space at the end of either part. */
  predicate Short(n: Name) {
    var d := FirstDot(n);
    && d <= 8
    && Tight(n[..d])
    && (d < |n| ==> (1 <= |n| - d - 1 <= 3 && DOT !in n[d + 1..] && Tight(n[d + 1..])))
  }

  /** A file is found in the image under its own name exactly when that name is an 8.3 name. */
  lemma NameSurvives(n: Name)
    ensures Display(Packed(n)) == Upper(n) <==> Short(n)
  {
    hide Trim, Display, Packed, Upper;
    var u := Upper(n);
    UpperShort(n);
    UpperTwice(n);
    DisplayOfPacked(n);
    var b, e := Prefix(BeforeDot(u), 8), Prefix(BeforeDot(AfterDot(u)), 3);
    TrimFacts(b);
    TrimFacts(e);
    if FirstDot(u) == |u| {
      NoDotSurvives(u, b, Trim(b));
      assert e == [];
    } else {
      DottedSurvives(u, b, e, Trim(b), Trim(e));
    }
  }

  lemma NoDotSurvives(u: Name, b: Name, tb: Name)
    requires FirstDot(u) == |u| && b == Prefix(BeforeDot(u), 8)
    requires |tb| <= |b| && (|tb| == |b| ==> tb == b) && (tb == b <==> Tight(b))
    ensures tb == u <==> Short(u)
  {
    hide Tight, FirstDot;
    assert u[..|u|] == u;
  }

  lemma DottedSurvives(u: Name, b: Name, e: Name, tb: Name, te: Name)
    requires FirstDot(u) < |u|
    requires b == Prefix(BeforeDot(u), 8) && e == Prefix(BeforeDot(AfterDot(u)), 3)
    requires |tb| <= |b| && (|tb| == |b| ==> tb == b) && (tb == b <==> Tight(b)) && DOT !in tb
    requires |te| <= |e| && (|te| == |e| ==> te == e) && (te == e <==> Tight(e)) && DOT !in te
    ensures (if te == [] then tb else tb + [DOT] + te) == u <==> Short(u)
  {
    hide Tight, FirstDot, Prefix, BeforeDot, AfterDot, Short;
    var d := FirstDot(u);
    var head, rest := u[..d], u[d + 1..];
    ShortParts(u, d);
    WholePrefixes(u, d, rest);
    assert tb == head <==> d <= 8 && Tight(head);
    assert te == rest <==> |rest| <= 3 && DOT !in rest && Tight(rest);
    SplitAtDot(u, d, tb, te);
    assert te != [] && te == rest <==> te == rest && |rest| >= 1;
  }

  lemma ShortParts(u: Name, d: nat)
    requires d == FirstDot(u) < |u|
    ensures Short(u) <==>
            d <= 8 && Tight(u[..d]) && 1 <= |u[d + 1..]| <= 3 && DOT !in u[d + 1..] && Tight(u[d + 1..])
  {
    hide Tight, FirstDot;
  }

  /** The first dot splits a string in one way only. */
  lemma SplitAtDot(u: Name, d: nat, tb: Name, te: Name)
    requires d < |u| && u[d] == DOT && DOT !in u[..d] && DOT !in tb
    ensures (if te == [] then tb else tb + [DOT] + te) == u <==> te != [] && tb == u[..d] && te == u[d + 1..]
  {
    var shown := if te == [] then tb else tb + [DOT] + te;
    if shown == u {
      assert te != [] by {
        assert u[d] == DOT;
      }
      assert u[|tb|] == DOT;
      assert |tb| == d;
      assert tb == shown[..d] && te == shown[d + 1..];
    }
    assert u == u[..d] + [DOT] + u[d + 1..];
  }

  lemma WholePrefixes(u: Name, d: nat, rest: Name)
    requires d == FirstDot(u) < |u| && rest == u[d + 1..]
    ensures |Prefix(BeforeDot(u), 8)| <= d && |Prefix(BeforeDot(AfterDot(u)), 3)| <= |rest|
    ensures Prefix(BeforeDot(u), 8) == u[..d] <==> d <= 8
    ensures Prefix(BeforeDot(AfterDot(u)), 3) == rest <==> |rest| <= 3 && DOT !in rest
  {
    hide FirstDot;
    var f := FirstDot(rest);
    if DOT !in rest {
      assert f == |rest|;
      assert rest[..|rest|] == rest;
    }
  }

  lemma UpperShort(n: Name)
    ensures Short(Upper(n)) <==> Short(n)
    ensures FirstDot(Upper(n)) == FirstDot(n)
  {
    hide FirstDot, Tight, UpperByte;
    var d := FirstDot(n);
    UpperFirstDot(n);
    var u := Upper(n);
    assert u[0..d] == u[..d] && n[0..d] == n[..d];
    TightUpper(n, 0, d);
    if d < |n| {
      assert u[d + 1..|n|] == u[d + 1..] && n[d + 1..|n|] == n[d + 1..];
      TightUpper(n, d + 1, |n|);
      DotsUpper(n, d + 1);
    }
  }

  lemma UpperFirstDot(n: Name)
    ensures FirstDot(Upper(n)) == FirstDot(n)
  {
    hide FirstDot;
    var u := Upper(n);
    var f, d := FirstDot(u), FirstDot(n);
    assert f < |u| ==> n[f] == DOT;
    assert d < |n| ==> u[d] == DOT;
    FirstIsUnique(u[..f], u, d);
    FirstIsUnique(n[..d], n, f);
  }

  lemma FirstIsUnique(head: Name, n: Name, k: nat)
    requires head <= n && DOT !in head && k <= |n| && (k < |n| ==> n[k] == DOT)
    ensures |head| <= k
  {
  }

  lemma TightUpper(n: Name, lo: nat, hi: nat)
    requires lo <= hi <= |n|
    ensures Tight(Upper(n)[lo..hi]) <==> Tight(n[lo..hi])
  {
    if lo < hi {
      UpperKeepsMarks(n, lo);
      UpperKeepsMarks(n, hi - 1);
    }
  }

  lemma DotsUpper(n: Name, lo: nat)
    requires lo <= |n|
    ensures DOT in Upper(n)[lo..] <==> DOT in n[lo..]
  {
    var u := Upper(n);
    if DOT in u[lo..] {
      var k :| 0 <= k < |u[lo..]| && u[lo..][k] == DOT;
      assert n[lo..][k] == DOT;
    }
    if DOT in n[lo..] {
      var k :| 0 <= k < |n[lo..]| && n[lo..][k] == DOT;
      assert u[lo..][k] == DOT;
    }
  }

  /** Whatever was packed, the kernel shows an 8.3 name for it. */
  lemma ShownIsShort(n: Name)
    ensures Short(Display(Packed(n)))
  {
    hide Trim, Display, Packed, FirstDot;
    DisplayOfPacked(n);
    var b, e := BeforeDot(Upper(n)), BeforeDot(AfterDot(Upper(n)));
    TrimmedPart(b, 8);
    TrimmedPart(e, 3);
    JoinedIsShort(Trim(Prefix(b, 8)), Trim(Prefix(e, 3)));
  }

  lemma TrimmedPart(s: Name, width: nat)
    requires DOT !in s
    ensures |Trim(Prefix(s, width))| <= width && Tight(Trim(Prefix(s, width))) && DOT !in Trim(Prefix(s, width))
  {
    hide Trim;
    TrimFacts(Prefix(s, width));
    TrimIsTight(Prefix(s, width));
  }

  lemma TrimIsTight(s: Name)
    ensures Tight(Trim(s))
  {
    hide TrimEnd, TrimStart;
    TrimEndFacts(s);
    TrimStartFacts(TrimEnd(s));
  }

  lemma JoinedIsShort(base: Name, ext: Name)
    requires |base| <= 8 && Tight(base) && DOT !in base && |ext| <= 3 && Tight(ext) && DOT !in ext
    ensures Short(if ext == [] then base else base + [DOT] + ext)
  {
    hide Tight, FirstDot;
    var shown := if ext == [] then base else base + [DOT] + ext;
    var d := FirstDot(shown);
    FirstIsUnique(shown[..d], shown, |base|);
    assert d < |shown| ==> shown[d] == DOT;
    FirstIsUnique(base, shown, d);
    assert d == |base|;
    assert shown[..d] == base;
    if ext != [] {
      assert shown[d + 1..] == ext;
    }
  }
}
