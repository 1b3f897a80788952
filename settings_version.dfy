/** `get_short_version` and `get_version` (`settings/__init__.py`). */
module SettingsVersion {
  import opened Wrappers
  import opened Strings

  /** `VERSION`: major, minor, micro, release tag and an optional fifth
      element. */
  datatype Version = Version(major: nat, minor: nat, micro: nat, release: string, serial: Option<string>)

  const CurrentVersion: Version := Version(1, 0, 0, "dev", None)

  /** "major.minor". */
  function ShortVersion(v: Version): (s: string)
    ensures |NatToString(v.major)| < |s| && s[..|NatToString(v.major)|] == NatToString(v.major)
    ensures s[|NatToString(v.major)|] == '.' && s[|NatToString(v.major)| + 1..] == NatToString(v.minor)
  {
    NatToString(v.major) + "." + NatToString(v.minor)
  }

  /** "a.b.c" for a non-zero micro, whatever the tag; "a.b" for a final
      release; "a.b tag", then " x" when a fifth element is present,
      for any other release. */
  function GetVersion(v: Version): (s: string)
    ensures ShortVersion(v) <= s
    ensures v.micro != 0 ==> s == ShortVersion(v) + "." + NatToString(v.micro)
    ensures v.micro == 0 && v.release == "final" ==> s == ShortVersion(v)
    ensures v.micro == 0 && v.release != "final" ==>
              s == ShortVersion(v) + " " + v.release + (if v.serial.Some? then " " + v.serial.value else "")
  {
    var version := ShortVersion(v);
    if v.micro != 0 then version + "." + NatToString(v.micro)
    else if v.release != "final" then
      var tagged := version + " " + v.release;
      if v.serial.Some? then tagged + " " + v.serial.value else tagged
    else version
  }

  lemma CurrentVersionStrings()
    ensures ShortVersion(CurrentVersion) == "1.0"
    ensures GetVersion(CurrentVersion) == "1.0 dev"
  {
    assert NatToString(1) == "1";
    assert NatToString(0) == "0";
  }

  /** Two versions that differ only in a non-zero micro print differently,
      and the tag is ignored. */
  lemma {:induction false} MicroVersionsDistinct(v: Version, w: Version)
    requires v.major == w.major && v.minor == w.minor
    requires v.micro != 0 && w.micro != 0
    ensures GetVersion(v) == GetVersion(w) <==> v.micro == w.micro
  {
    var p := ShortVersion(v) + ".";
    assert ShortVersion(v) == ShortVersion(w);
    if GetVersion(v) == GetVersion(w) {
      assert GetVersion(v) == p + NatToString(v.micro);
      assert GetVersion(w) == p + NatToString(w.micro);
      assert NatToString(v.micro) == GetVersion(v)[|p|..];
      assert NatToString(w.micro) == GetVersion(w)[|p|..];
      NatToStringInjective(v.micro, w.micro);
    }
  }
}
