/** Guest system names and what they are called in OVF. */
module GuestOs {
  import Text
  import opened XmlWriter
  import opened OvfNames

  datatype Kind =
    | Ubuntu64 | Ubuntu | Debian64 | Debian | Centos64 | Centos | Rhel64 | Rhel
    | Windows10x64 | Windows10 | Windows7x64 | Windows7 | Windows8x64 | Windows8 | WindowsServer
    | FreeBsd64 | FreeBsd | Darwin | Linux64 | Linux | Other64 | Other

  function Lower(c: char): char {
    if 'A' <= c <= 'Z' then 'a' + (c - 'A') else if c == '\U{212A}' then 'k' else c
  }

  /** Lower case, for characters that become an ASCII letter; all others stay outside ASCII. */
  function LowerCase(s: string): (t: string)
    ensures |t| == |s| && forall i | 0 <= i < |s| :: t[i] == Lower(s[i])
  {
    seq(|s|, i requires 0 <= i < |s| => Lower(s[i]))
  }

  /** The system a name in lower case stands for. */
  function KindNamed(s: string): Kind {
    if s in {"ubuntu-64", "ubuntu64"} then Ubuntu64
    else if s in {"ubuntu", "ubuntu-32"} then Ubuntu
    else if s in {"debian-64", "debian64", "debian10-64", "debian11-64", "debian12-64"} then Debian64
    else if s in {"debian", "debian-32", "debian10", "debian11", "debian12"} then Debian
    else if s in {"centos-64", "centos64", "centos7-64", "centos8-64", "centos9-64"} then Centos64
    else if s in {"centos", "centos-32", "centos7", "centos8", "centos9"} then Centos
    else if s in {"rhel-64", "rhel64", "rhel7-64", "rhel8-64", "rhel9-64"} then Rhel64
    else if s in {"rhel", "rhel-32", "rhel7", "rhel8", "rhel9"} then Rhel
    else if s in {"windows10-64", "windows10_64", "win10-64"} then Windows10x64
    else if s in {"windows10", "windows10-32", "win10"} then Windows10
    else if s in {"windows11-64", "windows11_64", "win11-64", "win11"} then Windows10x64
    else if s in {"windows7-64", "windows7_64", "win7-64"} then Windows7x64
    else if s in {"windows7", "windows7-32", "win7"} then Windows7
    else if s in {"windows8-64", "windows8_64", "win8-64"} then Windows8x64
    else if s in {"windows8", "windows8-32", "win8"} then Windows8
    else if s in {"windowsserver2016-64", "windows2016-64", "win2016-64"} then WindowsServer
    else if s in {"windowsserver2019-64", "windows2019-64", "win2019-64"} then WindowsServer
    else if s in {"windowsserver2022-64", "windows2022-64", "win2022-64"} then WindowsServer
    else if s in {"freebsd-64", "freebsd64"} then FreeBsd64
    else if s in {"freebsd", "freebsd-32"} then FreeBsd
    else if s in {"darwin-64", "darwin64", "macos", "darwin"} then Darwin
    else if s in {"linux-64", "other-linux-64", "otherlinux-64"} then Linux64
    else if s in {"linux", "other-linux", "otherlinux"} then Linux
    else if s in {"other-64", "other64"} then Other64
    else Other
  }

  function KindOf(guestOs: string): Kind {
    KindNamed(LowerCase(guestOs))
  }

  function OsId(k: Kind): nat {
    match k
    case Ubuntu64 => 96
    case Ubuntu => 93
    case Debian64 => 96
    case Debian => 95
    case Centos64 => 107
    case Centos => 107
    case Rhel64 => 80
    case Rhel => 79
    case Windows10x64 => 109
    case Windows10 => 108
    case Windows7x64 => 105
    case Windows7 => 104
    case Windows8x64 => 107
    case Windows8 => 106
    case WindowsServer => 112
    case FreeBsd64 => 114
    case FreeBsd => 42
    case Darwin => 101
    case Linux64 => 101
    case Linux => 36
    case Other64 => 102
    case Other => 1
  }

  function LinuxStem(k: Kind): Literal {
    if k.Ubuntu64? then "ubuntu64"
    else if k.Ubuntu? then "ubuntu"
    else if k.Debian64? then "debian10_64"
    else if k.Debian? then "debian10"
    else if k.Centos64? then "centos64"
    else if k.Centos? then "centos"
    else if k.Rhel64? then "rhel7_64"
    else "rhel7"
  }

  function WindowsStem(k: Kind): Literal {
    if k.Windows10x64? then "windows9_64"
    else if k.Windows10? then "windows9"
    else if k.Windows7x64? then "windows7_64"
    else if k.Windows7? then "windows7"
    else if k.Windows8x64? then "windows8_64"
    else if k.Windows8? then "windows8"
    else Phrase("windows9", "Server64")
  }

  function OtherStem(k: Kind): Literal {
    if k.FreeBsd64? then "freebsd64"
    else if k.FreeBsd? then "freebsd"
    else if k.Darwin? then "darwin64"
    else if k.Linux64? then "otherLinux64"
    else if k.Linux? then "otherLinux"
    else if k.Other64? then "other64"
    else "other"
  }

  function OsTypeName(k: Kind): Literal {
    var stem :=
      if k.Ubuntu64? || k.Ubuntu? || k.Debian64? || k.Debian? || k.Centos64? || k.Centos? || k.Rhel64? || k.Rhel?
      then LinuxStem(k)
      else if k.Windows10x64? || k.Windows10? || k.Windows7x64? || k.Windows7? || k.Windows8x64? || k.Windows8?
              || k.WindowsServer?
      then WindowsStem(k)
      else OtherStem(k);
    Phrase(stem, "Guest")
  }

  /** Upper and lower case do not matter. */
  lemma CaseDoesNotMatter(s: string, t: string)
    requires |s| == |t| && forall i | 0 <= i < |s| :: Text.AsciiUpper(s[i]) == Text.AsciiUpper(t[i])
    ensures KindOf(s) == KindOf(t)
  {
    hide KindNamed;
    assert LowerCase(s) == LowerCase(t);
  }

  /** Known names in lower case, and one that nobody knows. */
  lemma KnownGuests(s: string)
    ensures LowerCase(s) == "ubuntu-64" ==> OsId(KindOf(s)) == 96 && OsTypeName(KindOf(s)) == "ubuntu64Guest"
    ensures LowerCase(s) == "windows10-64" ==> OsId(KindOf(s)) == 109 && OsTypeName(KindOf(s)) == "windows9_64Guest"
    ensures LowerCase(s) == "unknownos" ==> OsId(KindOf(s)) == 1 && OsTypeName(KindOf(s)) == "otherGuest"
  {
  }
}
