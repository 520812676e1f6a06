/**
 * Relative paths and the collision-safe renaming of a file whose name is
 * already taken in the target tree.
 */
module Paths {

  /** A path relative to a tree's root, as its names from the top down; the empty path is the root itself. */
  type Path = seq<string>

  /** The last name of a path (its file name); the root has the empty name. */
  function FileName(p: Path): string {
    if p == [] then "" else p[|p| - 1]
  }

  /** The directory that holds `p`; the root is its own parent. */
  function Parent(p: Path): Path {
    if p == [] then [] else p[..|p| - 1]
  }

  /** The names of a path joined by '/', as Path.toString() prints a relative path on a '/'-separated file system. */
  function ToString(p: Path): string {
    if |p| <= 1 then FileName(p) else ToString(Parent(p)) + "/" + FileName(p)
  }

  // ----- decimal rendering of the collision counter -----

  predicate IsDigit(c: char) {
    '0' <= c <= '9'
  }

  function DigitChar(d: nat): (c: char)
    requires d < 10
    ensures IsDigit(c)
  {
    ('0' as int + d) as char
  }

  function DigitValue(c: char): (d: nat)
    requires IsDigit(c)
    ensures d < 10
  {
    c as int - '0' as int
  }

  /** The counter in decimal, as Java prints an int: at least one digit and nothing else. */
  function DecimalString(n: nat): (s: string)
    ensures |s| >= 1
    ensures forall i :: 0 <= i < |s| ==> IsDigit(s[i])
  {
    if n < 10 then [DigitChar(n)] else DecimalString(n / 10) + [DigitChar(n % 10)]
  }

  /** Reads a string of digits back as a number. */
  function ParseDecimal(s: string): nat
    requires forall i :: 0 <= i < |s| ==> IsDigit(s[i])
  {
    if s == [] then 0 else ParseDecimal(s[..|s| - 1]) * 10 + DigitValue(s[|s| - 1])
  }

  /** Reading the printed counter gives the counter back. */
  lemma {:induction false} ParseDecimalString(n: nat)
    ensures ParseDecimal(DecimalString(n)) == n
  {
    var s := DecimalString(n);
    if n < 10 {
      assert s[..0] == [];
    } else {
      ParseDecimalString(n / 10);
      assert s[..|s| - 1] == DecimalString(n / 10);
    }
  }

  /** Different counters print differently. */
  lemma DecimalStringInjective(n: nat, m: nat)
    requires DecimalString(n) == DecimalString(m)
    ensures n == m
  {
    ParseDecimalString(n);
    ParseDecimalString(m);
  }

  // ----- splitting a file name at its final extension -----

  /** The index of the last '.' of a name, or -1 when the name has none. */
  function LastDot(name: string): (i: int)
    ensures -1 <= i < |name|
  {
    if name == [] then -1
    else if name[|name| - 1] == '.' then |name| - 1
    else LastDot(name[..|name| - 1])
  }

  /** LastDot finds a '.', when there is one, and no '.' follows it. */
  lemma {:induction false} LastDotSpec(name: string)
    ensures 0 <= LastDot(name) ==> name[LastDot(name)] == '.'
    ensures forall j :: LastDot(name) < j < |name| ==> name[j] != '.'
  {
    if name != [] && name[|name| - 1] != '.' {
      var front := name[..|name| - 1];
      LastDotSpec(front);
      assert forall j :: 0 <= j < |front| ==> front[j] == name[j];
    }
  }

  /** The properties LastDotSpec states pin LastDot down. */
  lemma {:induction false} LastDotIs(name: string, k: int)
    requires k == -1 || (0 <= k < |name| && name[k] == '.')
    requires forall j :: k < j < |name| ==> name[j] != '.'
    ensures LastDot(name) == k
  {
    if name != [] && name[|name| - 1] != '.' {
      var front := name[..|name| - 1];
      assert forall j :: 0 <= j < |front| ==> front[j] == name[j];
      LastDotIs(front, k);
    }
  }

  /** The name up to its final extension (the whole name when it has no '.'). */
  function Stem(name: string): string {
    var i := LastDot(name);
    if i < 0 then name else name[..i]
  }

  /** The final extension with its '.', or "" when the name has no '.'. */
  function Extension(name: string): string {
    var i := LastDot(name);
    if i < 0 then "" else name[i..]
  }

  lemma StemExtension(name: string)
    ensures Stem(name) + Extension(name) == name
  {
  }

  /** The text renaming inserts: " (n)". */
  function CounterTag(n: nat): string {
    " (" + DecimalString(n) + ")"
  }

  /** The tag holds no '.', so it never becomes the final extension. */
  lemma CounterTagHasNoDot(n: nat)
    ensures forall j :: 0 <= j < |CounterTag(n)| ==> CounterTag(n)[j] != '.'
  {
    var d := DecimalString(n);
    forall j | 0 <= j < |CounterTag(n)| ensures CounterTag(n)[j] != '.' {
      if 2 <= j < 2 + |d| {
        assert CounterTag(n)[j] == d[j - 2];
      }
    }
  }

  /** Inserting the tag before the final extension moves the last '.' past the tag, and nowhere else. */
  lemma LastDotOfTagged(name: string, n: nat)
    ensures var r := Stem(name) + CounterTag(n) + Extension(name);
            LastDot(r) == if LastDot(name) < 0 then -1 else |Stem(name)| + |CounterTag(n)|
  {
    var t := CounterTag(n);
    var i := LastDot(name);
    var r := Stem(name) + t + Extension(name);
    LastDotSpec(name);
    CounterTagHasNoDot(n);
    if i < 0 {
      assert r == name + t;
      forall j | 0 <= j < |r| ensures r[j] != '.' {
        if j >= |name| { assert r[j] == t[j - |name|]; }
      }
      LastDotIs(r, -1);
    } else {
      var k := |Stem(name)| + |t|;
      assert |Stem(name)| == i;
      assert r[k] == name[i];
      forall j | k < j < |r| ensures r[j] != '.' {
        assert r[j] == name[j - |t|];
      }
      LastDotIs(r, k);
    }
  }

  /** renameDuplicateFile(path, n): the file name of `p` with " (n)" inserted before its final extension. */
  function RenameDuplicateFile(p: Path, n: nat): (r: string)
    ensures |r| == |FileName(p)| + |CounterTag(n)|
  {
    var name := FileName(p);
    StemExtension(name);
    Stem(name) + CounterTag(n) + Extension(name)
  }

  /**
   * The renamed file keeps the final extension of the old name, and its stem is the
   * old stem followed by the tag.
   */
  lemma RenameDuplicateFileSplits(p: Path, n: nat)
    ensures Extension(RenameDuplicateFile(p, n)) == Extension(FileName(p))
    ensures Stem(RenameDuplicateFile(p, n)) == Stem(FileName(p)) + CounterTag(n)
  {
    var name := FileName(p);
    var r := RenameDuplicateFile(p, n);
    LastDotOfTagged(name, n);
    assert r[..|Stem(name)| + |CounterTag(n)|] == Stem(name) + CounterTag(n);
  }

  /** Distinct counters give distinct names, so collision probing never revisits a name. */
  lemma {:induction false} RenameDuplicateFileInjective(p: Path, n: nat, m: nat)
    requires RenameDuplicateFile(p, n) == RenameDuplicateFile(p, m)
    ensures n == m
  {
    RenameDuplicateFileSplits(p, n);
    RenameDuplicateFileSplits(p, m);
    var stem := Stem(FileName(p));
    var a, b := stem + CounterTag(n), stem + CounterTag(m);
    assert a == b;
    assert CounterTag(n) == a[|stem|..] == b[|stem|..] == CounterTag(m);
    var dn, dm := DecimalString(n), DecimalString(m);
    assert |dn| == |dm|;
    assert dn == CounterTag(n)[2..2 + |dn|];
    assert dm == CounterTag(m)[2..2 + |dm|];
    DecimalStringInjective(n, m);
  }

  /** Where a renamed copy goes: the directory of `p`, under the renamed file name. */
  function RenamedPath(p: Path, n: nat): Path {
    Parent(p) + [RenameDuplicateFile(p, n)]
  }

  /** A renamed copy stays in the same directory as `p`, under the renamed name, and is never `p` itself. */
  lemma RenamedPathShape(p: Path, n: nat)
    ensures Parent(RenamedPath(p, n)) == Parent(p)
    ensures FileName(RenamedPath(p, n)) == RenameDuplicateFile(p, n)
    ensures RenamedPath(p, n) != p
  {
    var r := RenamedPath(p, n);
    assert r[..|r| - 1] == Parent(p);
    assert |FileName(r)| > |FileName(p)|;
  }

  lemma {:induction false} RenamedPathInjective(p: Path, n: nat, m: nat)
    requires RenamedPath(p, n) == RenamedPath(p, m)
    ensures n == m
  {
    RenamedPathShape(p, n);
    RenamedPathShape(p, m);
    assert FileName(RenamedPath(p, n)) == FileName(RenamedPath(p, m));
    RenameDuplicateFileInjective(p, n, m);
  }

  /** Any path to a file named einsteiger.php.html is renamed inside "einsteiger.php" and ".html". */
  lemma RenamePage(p: Path, n: nat)
    requires FileName(p) == "einsteiger.php.html"
    ensures RenameDuplicateFile(p, n) == "einsteiger.php" + CounterTag(n) + ".html"
  {
    var name := "einsteiger.php.html";
    LastDotIs(name, 14);
    assert Stem(name) == "einsteiger.php";
    assert Extension(name) == ".html";
    RenameDuplicateFileSplits(p, n);
    StemExtension(RenameDuplicateFile(p, n));
  }

  /** The first renaming the tests spell out, for any path to einsteiger.php.html. */
  lemma RenameDuplicateFileFirst(p: Path)
    requires FileName(p) == "einsteiger.php.html"
    ensures RenameDuplicateFile(p, 1) == "einsteiger.php (1).html"
  {
    RenamePage(p, 1);
    assert DecimalString(1) == "1";
  }

  /** The second renaming the tests spell out, for any path to einsteiger.php.html. */
  lemma RenameDuplicateFileSecond(p: Path)
    requires FileName(p) == "einsteiger.php.html"
    ensures RenameDuplicateFile(p, 2) == "einsteiger.php (2).html"
  {
    RenamePage(p, 2);
    assert DecimalString(2) == "2";
  }

  /** A name with several dots is tagged before the last one only. */
  lemma RenameDuplicateFileSeveralDots()
    ensures RenameDuplicateFile(["doc.tar.gz"], 2) == "doc.tar (2).gz"
  {
    var name := "doc.tar.gz";
    LastDotIs(name, 7);
    assert Stem(name) == "doc.tar";
    assert Extension(name) == ".gz";
    assert CounterTag(2) == " (2)";
  }

  /** A name with one extension is tagged before it. */
  lemma RenameDuplicateFileOneDot()
    ensures RenameDuplicateFile(["doc.html"], 1) == "doc (1).html"
  {
    var name := "doc.html";
    LastDotIs(name, 3);
    assert Stem(name) == "doc";
    assert Extension(name) == ".html";
    assert CounterTag(1) == " (1)";
  }
}
