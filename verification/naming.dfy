/**
 * The AFL-style names the synchroniser gives the seeds it hands out: the per-destination
 * link counter (`new_afl_filename`, in both schemes) and the scan of a real queue
 * directory for the next free copy id (`next_id_in_dir`).
 */
module Naming {
  import opened Wrappers
  import opened Strings
  import opened Watcher

  /** The two synchronisation schemes: links only, or a link plus a copy into the real queue. */
  datatype Scheme = LinkOnly | LinkAndCopy

  /** The length of the leading run of ASCII letters and digits. */
  function AlnumRun(s: string): (k: nat)
    ensures k <= |s|
    ensures forall i :: 0 <= i < k ==> IsAlnum(s[i])
    ensures k < |s| ==> !IsAlnum(s[k])
    decreases |s|
  {
    if |s| == 0 || !IsAlnum(s[0]) then 0 else 1 + AlnumRun(s[1..])
  }

  /**
   * What is left after the optional `[A-Za-z0-9]+_` tag of the id pattern. The letters
   * and digits cannot match `_`, so the tag, when present, ends at the first character
   * outside the class and no backtracking is needed.
   */
  function AfterTag(name: string): (rest: string)
    ensures |rest| <= |name| && rest == name[|name| - |rest|..]
    ensures rest != name ==> name[|name| - |rest| - 1] == '_'
  {
    var k := AlnumRun(name);
    if 0 < k < |name| && name[k] == '_' then name[k + 1..] else name
  }

  /**
   * `_id_re.match(name)` with the pattern `^(?:[A-Za-z0-9]+_)?id:(\d{6})`, and the
   * captured group as an integer: exactly the first six digits after `id:`.
   */
  function IdAsWritten(name: string): (r: Option<nat>)
    ensures r.Some? ==> r.value < 1000000
  {
    var rest := AfterTag(name);
    if StartsWith(rest, "id:") && DigitRun(rest[3..]) >= 6 then
      var d := rest[3..][..6];
      SixDigitsBelow(d);
      Some(ParseNat(d))
    else None
  }

  lemma SixDigitsBelow(d: string)
    requires |d| == 6 && AllDigits(d)
    ensures ParseNat(d) < 1000000
  {
    ParseNatBelow(d);
    assert Pow10(6) == 1000000;
  }

  /** The same match with the whole digit run captured (`(\d+)`): the id the name carries. */
  function IdOf(name: string): (r: Option<nat>)
  {
    var rest := AfterTag(name);
    if StartsWith(rest, "id:") && DigitRun(rest[3..]) >= 1 then
      Some(ParseNat(rest[3..][..DigitRun(rest[3..])]))
    else None
  }

  /** The largest id among `names` under the parser `id`, or -1 when no name matches. */
  function MaxId(names: seq<string>, id: string -> Option<nat>): (m: int)
    ensures m >= -1
    ensures forall i :: 0 <= i < |names| && id(names[i]).Some? ==> id(names[i]).value <= m
    ensures m == -1 <==> forall i :: 0 <= i < |names| ==> id(names[i]).None?
    ensures m >= 0 ==> exists i :: 0 <= i < |names| && id(names[i]) == Some(m as nat)
    decreases |names|
  {
    if |names| == 0 then -1
    else
      var rest := MaxId(names[1..], id);
      assert forall i :: 1 <= i < |names| ==> names[i] == names[1..][i - 1];
      match id(names[0])
      case None => rest
      case Some(n) => if n > rest then n else rest
  }

  /** `f"{src}_id:{n:06d}"` */
  function CopyName(src: string, n: nat): string {
    src + "_id:" + ZeroPad(n, 6)
  }

  lemma CopyNameShape(src: string, n: nat)
    ensures StartsWith(CopyName(src, n), src + "_id:")
    ensures CopyName(src, n)[|src| + 4..] == ZeroPad(n, 6)
  {
  }

  /**
   * `next_id_in_dir` with the id parser `id`: one past the largest id `id` reads in the
   * directory listing `names` (a missing directory lists as empty), zero-padded to six
   * digits and tagged with the origin `src`.
   */
  function NextCopyName(names: seq<string>, src: string, id: string -> Option<nat>): (r: string)
    ensures StartsWith(r, src + "_id:") && AllDigits(r[|src| + 4..])
  {
    var n := (MaxId(names, id) + 1) as nat;
    CopyNameShape(src, n);
    CopyName(src, n)
  }

  /**
   * Under any id parser, the number in the proposed name exceeds every id the parser reads
   * in the listing, and a listing without ids is offered `<src>_id:000000`.
   */
  lemma NextCopyAbove(names: seq<string>, src: string, id: string -> Option<nat>)
    ensures var r := NextCopyName(names, src, id);
      && (forall i :: 0 <= i < |names| && id(names[i]).Some? ==> id(names[i]).value < ParseNat(r[|src| + 4..]))
      && ((forall i :: 0 <= i < |names| ==> id(names[i]).None?) ==> r == src + "_id:000000")
  {
    var n := (MaxId(names, id) + 1) as nat;
    CopyNameShape(src, n);
    ParseZeroPad(n, 6);
    assert n == 0 ==> ZeroPad(n, 6) == "000000";
  }

  /** `next_id_in_dir` as written: the pattern captures exactly six digits after `id:`. */
  function NextIdInDirAsWritten(names: seq<string>, src: string): string {
    NextCopyName(names, src, IdAsWritten)
  }

  /** `next_id_in_dir` with the whole digit run of each id read. */
  function NextIdInDir(names: seq<string>, src: string): string {
    NextCopyName(names, src, IdOf)
  }

  lemma AlnumRunTagged(src: string, rest: string)
    requires AllAlnum(src)
    ensures AlnumRun(src + "_" + rest) == |src|
    decreases |src|
  {
    if |src| > 0 {
      assert (src + "_" + rest)[1..] == src[1..] + "_" + rest;
      AlnumRunTagged(src[1..], rest);
    }
  }

  lemma DigitRunAll(d: string)
    requires AllDigits(d)
    ensures DigitRun(d) == |d|
    decreases |d|
  {
    if |d| > 0 {
      DigitRunAll(d[1..]);
    }
  }

  /** `id:<digits>` carries the number its digits denote. */
  lemma IdOfPlain(d: string)
    requires 1 <= |d| && AllDigits(d)
    ensures IdOf("id:" + d) == Some(ParseNat(d))
  {
    var name := "id:" + d;
    assert AlnumRun(name[1..]) == 1;
    assert AlnumRun(name) == 2;
    assert AfterTag(name) == name;
    assert name[3..] == d;
    DigitRunAll(d);
    assert d[..|d|] == d;
  }

  /** `<tag>_id:<digits>` carries the number its digits denote. */
  lemma IdOfTagged(src: string, d: string)
    requires 0 < |src| && AllAlnum(src)
    requires 1 <= |d| && AllDigits(d)
    ensures IdOf(src + "_" + ("id:" + d)) == Some(ParseNat(d))
  {
    var rest := "id:" + d;
    AlnumRunTagged(src, rest);
    assert (src + "_" + rest)[|src| + 1..] == rest;
    assert AfterTag(src + "_" + rest) == rest;
    assert rest[3..] == d;
    DigitRunAll(d);
    assert d[..|d|] == d;
  }

  /** Every tagged copy name carries the number written in it. */
  lemma IdOfCopyNames(src: string)
    requires 0 < |src| && AllAlnum(src)
    ensures forall k: nat :: IdOf(CopyName(src, k)) == Some(k)
  {
    forall k: nat
      ensures IdOf(CopyName(src, k)) == Some(k)
    {
      IdOfCopyName(src, k);
    }
  }

  /** The id a tagged copy name carries is the number written in it. */
  lemma IdOfCopyName(src: string, n: nat)
    requires 0 < |src| && AllAlnum(src)
    ensures IdOf(CopyName(src, n)) == Some(n)
  {
    var d := ZeroPad(n, 6);
    assert CopyName(src, n) == src + "_" + ("id:" + d);
    IdOfTagged(src, d);
    ParseZeroPad(n, 6);
  }

  /**
   * With the whole digit run read, the copy name chosen is never one already in the
   * directory, so `copy2` never overwrites an earlier seed.
   */
  lemma NextIdInDirFresh(names: seq<string>, src: string)
    requires 0 < |src| && AllAlnum(src)
    ensures NextIdInDir(names, src) !in names
  {
    IdOfCopyNames(src);
    NextCopyFresh(names, src, IdOf);
  }

  /** A parser that reads back the number of every copy name makes the proposed name fresh. */
  lemma NextCopyFresh(names: seq<string>, src: string, id: string -> Option<nat>)
    requires forall k: nat :: id(CopyName(src, k)) == Some(k)
    ensures NextCopyName(names, src, id) !in names
  {
    var m := MaxId(names, id);
    var r := CopyName(src, (m + 1) as nat);
    assert NextCopyName(names, src, id) == r;
    assert id(r) == Some((m + 1) as nat);
    AboveAllIsFresh(names, id, r, (m + 1) as nat, m);
  }

  /** A name whose id exceeds every id in the listing is not in the listing. */
  lemma AboveAllIsFresh(names: seq<string>, id: string -> Option<nat>, r: string, n: nat, m: int)
    requires id(r) == Some(n) && m < n
    requires forall i :: 0 <= i < |names| && id(names[i]).Some? ==> id(names[i]).value <= m
    ensures r !in names
  {
    forall i | 0 <= i < |names|
      ensures names[i] != r
    {
      if id(names[i]).Some? {
        assert id(names[i]).value <= m;
      }
    }
  }

  /** `id:<digits>` as the six-digit pattern reads it. */
  lemma IdAsWrittenPlain(d: string)
    requires 6 <= |d| && AllDigits(d)
    ensures IdAsWritten("id:" + d) == Some(ParseNat(d[..6]))
  {
    var name := "id:" + d;
    assert AlnumRun(name[1..]) == 1;
    assert AlnumRun(name) == 2;
    assert AfterTag(name) == name;
    assert name[3..] == d;
    DigitRunAll(d);
  }

  /** `<tag>_id:<digits>` as the six-digit pattern reads it. */
  lemma IdAsWrittenTagged(src: string, d: string)
    requires 0 < |src| && AllAlnum(src)
    requires 6 <= |d| && AllDigits(d)
    ensures IdAsWritten(src + "_" + ("id:" + d)) == Some(ParseNat(d[..6]))
  {
    var rest := "id:" + d;
    AlnumRunTagged(src, rest);
    assert (src + "_" + rest)[|src| + 1..] == rest;
    assert AfterTag(src + "_" + rest) == rest;
    assert rest[3..] == d;
    DigitRunAll(d);
  }

  /**
   * With exactly six digits read, `id:1000000` counts as id 100000, so once a directory
   * holds `id:999999` every later call proposes the same `<src>_id:1000000`, the name of
   * the previous copy.
   */
  lemma NextIdInDirAsWrittenReuses(names: seq<string>)
    requires names == ["id:999999", "aflgo_id:1000000"]
    ensures NextIdInDirAsWritten(names, "aflgo") == names[1]
  {
    var d1, d2 := NatToString(999999), NatToString(1000000);
    LiteralSixNines();
    LiteralMillion();
    LiteralNames();
    ParseNatToString(999999);
    ParseNatToString(100000);
    ReusedName("aflgo", d1, d2);
  }

  lemma LiteralSixNines()
    ensures NatToString(999999) == "999999"
  {
  }

  lemma LiteralMillion()
    ensures NatToString(1000000) == "1000000" && NatToString(1000000)[..6] == NatToString(100000)
  {
    assert NatToString(100000) == "100000";
    assert "1000000"[..6] == "100000";
  }

  lemma LiteralNames()
    ensures ["id:" + NatToString(999999), "aflgo" + "_" + ("id:" + NatToString(1000000))] == ["id:999999", "aflgo_id:1000000"]
  {
    LiteralSixNines();
    LiteralMillion();
    assert "id:" + "999999" == "id:999999";
    assert "aflgo" + "_" + ("id:" + "1000000") == "aflgo_id:1000000";
  }

  /** Once `id:999999` is present, the name of the copy after it is proposed again. */
  lemma ReusedName(src: string, d1: string, d2: string)
    requires 0 < |src| && AllAlnum(src)
    requires |d1| == 6 && AllDigits(d1) && ParseNat(d1) == 999999
    requires |d2| == 7 && AllDigits(d2) && ParseNat(d2[..6]) == 100000
    requires ZeroPad(1000000, 6) == d2
    ensures var names := ["id:" + d1, src + "_" + ("id:" + d2)];
      NextIdInDirAsWritten(names, src) == names[1]
  {
    IdAsWrittenPlain(d1);
    assert d1[..6] == d1;
    IdAsWrittenTagged(src, d2);
    CopyNameSplit(src, d2);
    ReuseFromIds("id:" + d1, src + "_" + ("id:" + d2), src);
  }

  lemma CopyNameSplit(src: string, d2: string)
    requires ZeroPad(1000000, 6) == d2
    ensures CopyName(src, 1000000) == src + "_" + ("id:" + d2)
  {
  }

  lemma ReuseFromIds(a: string, b: string, src: string)
    requires IdAsWritten(a) == Some(999999) && IdAsWritten(b) == Some(100000)
    requires b == CopyName(src, 1000000)
    ensures NextIdInDirAsWritten([a, b], src) == b
  {
    assert [a, b][1..] == [b];
    assert [b][1..] == [];
    assert MaxId([a, b], IdAsWritten) == 999999;
  }

  /** The copying scheme's own copies never look like seeds to a watcher. */
  lemma CopyNameIgnored(dir: string, src: string, n: nat)
    requires AllAlnum(src)
    ensures Ignored(Child(dir, CopyName(src, n)))
  {
    var name := CopyName(src, n);
    TaggedNoSlash(src, ZeroPad(n, 6));
    BasenameChild(dir, name);
    TaggedNotPlain(src, ZeroPad(n, 6));
  }

  /** A tagged name of letters, digits, `_id:` and digits holds no `/`. */
  lemma TaggedNoSlash(src: string, d: string)
    requires AllAlnum(src) && AllDigits(d)
    ensures '/' !in src + "_id:" + d
  {
    var name := src + "_id:" + d;
    forall i | 0 <= i < |name|
      ensures name[i] != '/'
    {
      if i < |src| { assert IsAlnum(src[i]); }
      else if i >= |src| + 4 { assert IsDigit(d[i - |src| - 4]); }
    }
  }

  /** A tagged name does not begin with `id:`, since its tag is letters and digits followed by `_`. */
  lemma TaggedNotPlain(src: string, d: string)
    requires AllAlnum(src)
    ensures !StartsWith(src + "_id:" + d, "id:")
  {
    var name := src + "_id:" + d;
    if |src| >= 3 { assert IsAlnum(name[2]); }
    else if |src| == 2 { assert name[2] == '_'; }
    else if |src| == 1 { assert name[1] == '_'; }
    else { assert name[0] == '_'; }
  }

  /** So a copy made under the name `next_id_in_dir` picks is never read back as a seed. */
  lemma NextIdInDirIgnored(dir: string, names: seq<string>, src: string)
    requires AllAlnum(src)
    ensures Ignored(Child(dir, NextIdInDir(names, src)))
  {
    CopyNameIgnored(dir, src, (MaxId(names, IdOf) + 1) as nat);
  }

  /** The per-destination link counter: `index[dest]`, 0 before the first link. */
  function Count(counter: map<string, nat>, dest: string): nat {
    if dest in counter then counter[dest] else 0
  }

  /**
   * `new_afl_filename`: the next link name for `dest`, `id:NNNNNN` in the link-only
   * scheme and `<src>_id:NNNNNN` in the copying scheme; the counter moves on by one.
   */
  function NewAflFilename(counter: map<string, nat>, dest: string, scheme: Scheme, src: string): (res: (string, map<string, nat>))
    ensures res.1.Keys == counter.Keys + {dest}
    ensures Count(res.1, dest) == Count(counter, dest) + 1
    ensures forall d :: d != dest ==> Count(res.1, d) == Count(counter, d)
    ensures scheme.LinkOnly? ==> IdOf(res.0) == Some(Count(counter, dest)) && !IgnoredName(res.0)
    ensures scheme.LinkAndCopy? && 0 < |src| && AllAlnum(src) ==> IdOf(res.0) == Some(Count(counter, dest))
  {
    var n := Count(counter, dest);
    (FreshName(scheme, src, n), counter[dest := n + 1])
  }

  /** The name numbered `n`: `id:<n>` for the link-only scheme, a copy name otherwise. */
  function FreshName(scheme: Scheme, src: string, n: nat): (name: string)
    ensures scheme.LinkOnly? ==> IdOf(name) == Some(n) && !IgnoredName(name)
    ensures scheme.LinkAndCopy? && 0 < |src| && AllAlnum(src) ==> IdOf(name) == Some(n)
  {
    if scheme.LinkOnly? then
      IdOfPlainName(n);
      "id:" + ZeroPad(n, 6)
    else
      assert 0 < |src| && AllAlnum(src) ==> IdOf(CopyName(src, n)) == Some(n) by {
        if 0 < |src| && AllAlnum(src) {
          IdOfCopyName(src, n);
        }
      }
      CopyName(src, n)
  }

  lemma IdOfPlainName(n: nat)
    ensures IdOf("id:" + ZeroPad(n, 6)) == Some(n)
    ensures !IgnoredName("id:" + ZeroPad(n, 6))
  {
    var d := ZeroPad(n, 6);
    IdOfPlain(d);
    ParseZeroPad(n, 6);
    PlainNameAvoids(d, "orig");
    PlainNameAvoids(d, "sync");
  }

  /** `id:<digits>` starts with `id:` and contains no word starting with another letter. */
  lemma PlainNameAvoids(d: string, w: string)
    requires AllDigits(d) && |w| > 0 && !IsDigit(w[0]) && w[0] != 'i' && w[0] != 'd' && w[0] != ':'
    ensures StartsWith("id:" + d, "id:") && !Contains("id:" + d, w)
  {
    var name := "id:" + d;
    assert name[1..] == "d:" + d;
    assert ("d:" + d)[1..] == ":" + d;
    assert (":" + d)[1..] == d;
    assert !StartsWith(name, w) by {
      if |w| <= |name| { assert name[..|w|][0] == 'i'; }
    }
    assert !StartsWith("d:" + d, w) by {
      if |w| <= |d| + 2 { assert ("d:" + d)[..|w|][0] == 'd'; }
    }
    assert !StartsWith(":" + d, w) by {
      if |w| <= |d| + 1 { assert (":" + d)[..|w|][0] == ':'; }
    }
    NoLetters(d, w);
    assert !Contains(":" + d, w);
    assert !Contains("d:" + d, w);
  }

  /** A run of digits contains no word that starts with a letter. */
  lemma {:induction false} NoLetters(d: string, w: string)
    requires AllDigits(d) && |w| > 0 && !IsDigit(w[0])
    ensures !Contains(d, w)
    decreases |d|
  {
    if |d| > 0 {
      NoLetters(d[1..], w);
    }
  }

  /** Successive links to one destination carry ids one apart, so they never repeat. */
  lemma NewAflFilenameIncreasing(counter: map<string, nat>, dest: string, scheme: Scheme, src: string, src2: string)
    requires scheme.LinkOnly? || (0 < |src| && AllAlnum(src) && 0 < |src2| && AllAlnum(src2))
    ensures var (a, c1) := NewAflFilename(counter, dest, scheme, src);
      var (b, _) := NewAflFilename(c1, dest, scheme, src2);
      IdOf(a).Some? && IdOf(b).Some? && IdOf(b).value == IdOf(a).value + 1 && a != b
  {
  }
}
