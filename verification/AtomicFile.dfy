// internal/atomicfile/atomicfile.go: the names a write gives its temporary file.
module AtomicFile {
  import opened Model
  import opened Search

  const TEMP_INFIX := ".tmp-"

  predicate IsDigits(s: string) { forall i :: 0 <= i < |s| ==> '0' <= s[i] <= '9' }

  function TempName(target: string, digits: string): string { target + TEMP_INFIX + digits }

  /** The target a file of this name is the temporary file of, if it is one. */
  function TempTarget(name: string): Option<string> {
    var i := LastIndex(name, TEMP_INFIX);
    if i <= 0 then None
    else
      var digits := name[i + |TEMP_INFIX|..];
      if digits == "" || !IsDigits(digits) then None else Some(name[..i])
  }

  lemma InfixEndsIt(target: string, digits: string)
    requires IsDigits(digits)
    ensures LastIndex(TempName(target, digits), TEMP_INFIX) == |target|
  {
    var name := TempName(target, digits);
    assert name[|target|..|target| + 5] == TEMP_INFIX;
    assert At(name, |target|, TEMP_INFIX);
    forall i | |target| < i < |name| ensures name[i] != '.' {
      assert name[|target|..] == TEMP_INFIX + digits;
      assert name[i] == (TEMP_INFIX + digits)[i - |target|];
    }
    forall i | |target| < i ensures !At(name, i, TEMP_INFIX) {
      AtChars(name, i, TEMP_INFIX);
      assert TEMP_INFIX[0] == '.';
    }
  }

  /** The parser reads exactly the names a write draws: the target comes back
      whatever it is, and nothing else is taken for a temporary file. */
  lemma TempTargetInverts(name: string, target: string)
    ensures TempTarget(name) == Some(target) <==>
      target != "" && exists digits :: digits != "" && IsDigits(digits) && name == TempName(target, digits)
  {
    if TempTarget(name) == Some(target) {
      var i := LastIndex(name, TEMP_INFIX);
      var digits := name[i + |TEMP_INFIX|..];
      assert name == name[..i] + name[i..i + |TEMP_INFIX|] + digits;
      assert name == TempName(target, digits);
    }
    if digits :| target != "" && digits != "" && IsDigits(digits) && name == TempName(target, digits) {
      InfixEndsIt(target, digits);
      assert name[|target| + 5..] == digits && name[..|target|] == target;
    }
  }

  const SNAPSHOT_EXT := ".json"

  predicate IsSnapshotName(name: string) { HasSuffix(name, SNAPSHOT_EXT) }

  /** A write in flight is never listed as a snapshot. */
  lemma TempIsNoSnapshot(name: string)
    requires TempTarget(name).Some?
    ensures !IsSnapshotName(name)
  {
    var digits := name[LastIndex(name, TEMP_INFIX) + |TEMP_INFIX|..];
    assert name[|name| - 1] == digits[|digits| - 1];
    AtChars(name, |name| - 5, SNAPSHOT_EXT);
    assert SNAPSHOT_EXT[4] == 'n';
  }

  lemma SnapshotIsNoTemp(name: string)
    requires IsSnapshotName(name)
    ensures TempTarget(name).None?
  {
    if TempTarget(name).Some? {
      TempIsNoSnapshot(name);
    }
  }
}
