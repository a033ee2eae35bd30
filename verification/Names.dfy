/** File names of a log and its rotated generations (agent-rust/src/rotation.rs, config.rs).
    A name here is the last component of a path, so every name has a file name in Rust's sense. */
module Names {

  // ---------------------------------------------------------------- decimal rendering

  function Digit(d: nat): char
    requires d < 10
  {
    '0' + d as char
  }

  function Decimal(n: nat): (s: string)
    ensures s != ""
  {
    if n < 10 then [Digit(n)] else Decimal(n / 10) + [Digit(n % 10)]
  }

  function Value(s: string): int {
    if s == "" then 0 else 10 * Value(s[..|s| - 1]) + (s[|s| - 1] as int - '0' as int)
  }

  lemma {:induction false} DecimalReadsBack(n: nat)
    ensures Value(Decimal(n)) == n
  {
    if n >= 10 {
      DecimalReadsBack(n / 10);
      assert Decimal(n)[..|Decimal(n)| - 1] == Decimal(n / 10);
    } else {
      assert Decimal(n)[..0] == "";
    }
  }

  // ---------------------------------------------------------------- rotated names

  /** Index of the last dot, or -1. */
  function LastDot(name: string): (d: int)
    ensures -1 <= d < |name|
    ensures d >= 0 ==> name[d] == '.'
    ensures forall i :: d < i < |name| ==> name[i] != '.'
  {
    if name == "" then -1
    else if name[|name| - 1] == '.' then |name| - 1
    else LastDot(name[..|name| - 1])
  }

  /** `file_stem`: everything before the last dot; a leading dot does not start an extension. */
  function Stem(name: string): string {
    if LastDot(name) <= 0 then name else name[..LastDot(name)]
  }

  /** The extension with its dot, or nothing. */
  function Suffix(name: string): string {
    if LastDot(name) <= 0 then "" else name[LastDot(name)..]
  }

  function RotatedName(name: string, index: nat): string {
    Stem(name) + "." + Decimal(index) + Suffix(name)
  }

  /** Generation 0 is the live file, generation `i` the `i`-th rotated one. */
  function GenName(name: string, i: nat): string {
    if i == 0 then name else RotatedName(name, i)
  }

  lemma StemAndSuffix(name: string)
    ensures Stem(name) + Suffix(name) == name
  {
  }

  /** Different generations have different names; in particular none is the live file's. */
  lemma GenNameInjective(name: string, i: nat, j: nat)
    requires GenName(name, i) == GenName(name, j)
    ensures i == j
  {
    StemAndSuffix(name);
    if i != 0 && j != 0 {
      var m := |Stem(name)| + 1;
      var a, b := RotatedName(name, i), RotatedName(name, j);
      assert a[m..|a| - |Suffix(name)|] == Decimal(i);
      assert b[m..|b| - |Suffix(name)|] == Decimal(j);
      DecimalReadsBack(i);
      DecimalReadsBack(j);
    }
  }

  lemma {:induction false} DecimalDigits(n: nat)
    ensures forall k :: 0 <= k < |Decimal(n)| ==> '0' <= Decimal(n)[k] <= '9'
    ensures n > 0 ==> Decimal(n)[0] != '0'
  {
    if n >= 10 {
      DecimalDigits(n / 10);
    }
  }

  /** The index in decimal. */
  ghost predicate IsIndex(s: string, i: nat) {
    Value(s) == i && s != "" && (forall k :: 0 <= k < |s| ==> '0' <= s[k] <= '9') && (i > 0 ==> s[0] != '0')
  }

  lemma DecimalIsIndex(i: nat)
    ensures IsIndex(Decimal(i), i)
  {
    DecimalReadsBack(i);
    DecimalDigits(i);
  }

  predicate NoDot(s: string) {
    forall k :: 0 <= k < |s| ==> s[k] != '.'
  }

  lemma LastDotIs(name: string, d: nat)
    requires d < |name| && name[d] == '.' && NoDot(name[d + 1..])
    ensures LastDot(name) == d
  {
    assert forall k :: d < k < |name| ==> name[k] == name[d + 1..][k - d - 1];
  }

  lemma ExtensionAfterDot(stem: string, ext: string)
    requires NoDot(ext)
    ensures LastDot(stem + "." + ext) == |stem|
  {
    hide LastDot, NoDot;
    assert (stem + "." + ext)[|stem| + 1..] == ext;
    LastDotIs(stem + "." + ext, |stem|);
  }

  /** `agent.log` with index 3 is `agent.3.log`: stem, dot, the index in decimal, dot, extension. */
  lemma RotatedNameIs(stem: string, ext: string, i: nat)
    requires stem != "" && NoDot(ext)
    ensures exists index :: IsIndex(index, i) && RotatedName(stem + "." + ext, i) == stem + "." + index + "." + ext
  {
    ExtensionAfterDot(stem, ext);
    DecimalIsIndex(i);
    hide LastDot, IsIndex, NoDot, Decimal;
    var name := stem + "." + ext;
    assert name[..|stem|] == stem && name[|stem|..] == "." + ext;
    assert RotatedName(name, i) == stem + "." + Decimal(i) + "." + ext;
  }

  /** A name without an extension, one that only starts with a dot included, gets the index appended. */
  lemma RotatedNameWithoutExtension(name: string, i: nat)
    requires NoDot(name) || (name[0] == '.' && NoDot(name[1..]))
    ensures exists index :: IsIndex(index, i) && RotatedName(name, i) == name + "." + index
  {
    DecimalIsIndex(i);
    if !NoDot(name) {
      ExtensionAfterDot("", name[1..]);
      assert name == "" + "." + name[1..];
    }
    hide IsIndex, Decimal;
    assert LastDot(name) <= 0;
    assert RotatedName(name, i) == name + "." + Decimal(i);
  }

  lemma GenNamesDistinct(name: string)
    ensures forall i: nat, j: nat :: GenName(name, i) == GenName(name, j) ==> i == j
  {
    forall i: nat, j: nat | GenName(name, i) == GenName(name, j) ensures i == j {
      GenNameInjective(name, i, j);
    }
  }

  // ---------------------------------------------------------------- one log directory

  const AGENT_LOG := "agent.log"
  const CHILD_LOG := "child.log"
  const LOCK_FILE := "agent.lock"

  /** A name outside the family of `log`. */
  ghost predicate Elsewhere(log: string, name: string) {
    forall i: nat :: GenName(log, i) != name
  }

  lemma GenNameEnds(name: string, i: nat)
    requires |name| >= 5 && name[|name| - 4] == '.' && name[|name| - 3..] == "log"
    ensures |GenName(name, i)| >= |name| && GenName(name, i)[0] == name[0]
    ensures GenName(name, i)[|GenName(name, i)| - 1] == 'g'
  {
    assert name[|name| - 1] == name[|name| - 3..][2];
    assert forall k :: |name| - 3 <= k < |name| ==> name[k] == name[|name| - 3..][k - (|name| - 3)];
    assert LastDot(name) == |name| - 4;
    StemAndSuffix(name);
  }

  /** The files of one directory: `agent.log` and `agent.1.log` and so on, `child.log` and `child.1.log` and
      so on, and `agent.lock`. */
  lemma NamesInDirectory(i: nat)
    ensures GenName(AGENT_LOG, 0) == "agent.log" && GenName(CHILD_LOG, 0) == "child.log" && LOCK_FILE == "agent.lock"
    ensures i > 0 ==> exists index :: IsIndex(index, i) && GenName(AGENT_LOG, i) == "agent" + "." + index + "." + "log"
    ensures i > 0 ==> exists index :: IsIndex(index, i) && GenName(CHILD_LOG, i) == "child" + "." + index + "." + "log"
  {
    LogNames();
    RotatedNameIs("agent", "log", i);
    RotatedNameIs("child", "log", i);
    hide IsIndex, RotatedName, AGENT_LOG, CHILD_LOG;
  }

  lemma LogNames()
    ensures AGENT_LOG == "agent" + "." + "log" && CHILD_LOG == "child" + "." + "log" && NoDot("log")
  {
  }

  /** Within one directory the families of the two logs and the lock file are pairwise disjoint. */
  lemma FamiliesDisjoint(i: nat, j: nat)
    ensures GenName(AGENT_LOG, i) != GenName(CHILD_LOG, j)
    ensures GenName(AGENT_LOG, i) != LOCK_FILE
    ensures GenName(CHILD_LOG, i) != LOCK_FILE
  {
    assert AGENT_LOG[6..] == "log" && CHILD_LOG[6..] == "log";
    GenNameEnds(AGENT_LOG, i);
    GenNameEnds(CHILD_LOG, i);
    GenNameEnds(CHILD_LOG, j);
  }
}
