/** Port and volume specification strings (`pkg/libcompose/config/compat.go`). */
module Specs {
  import opened Text

  // ---------- Decimal numbers ----------

  const LIMIT := 0x1_0000_0000

  /** `uint32`. */
  type Word = n: nat | n < LIMIT

  /** `%d` when printing. */
  function Decimal(n: nat): (s: string)
    ensures s != "" && forall i :: 0 <= i < |s| ==> IsNum(s[i])
  {
    (if n < 10 then "" else Decimal(n / 10)) + [(n % 10) as char + '0']
  }

  function Value(s: string): nat
    requires forall i :: 0 <= i < |s| ==> IsNum(s[i])
  {
    if s == "" then 0 else assert IsNum(s[|s| - 1]); Value(s[..|s| - 1]) * 10 + (s[|s| - 1] as int - '0' as int)
  }

  lemma {:induction false} ValueOfDecimal(n: nat)
    ensures Value(Decimal(n)) == n
  {
    if n >= 10 {
      ValueOfDecimal(n / 10);
      assert Decimal(n)[..|Decimal(n)| - 1] == Decimal(n / 10);
    } else {
      assert Decimal(n)[..|Decimal(n)| - 1] == "";
    }
  }

  function LeadingDigits(s: string): (r: string)
    ensures forall i :: 0 <= i < |r| ==> IsNum(r[i])
  {
    if s == "" || !IsNum(s[0]) then "" else [s[0]] + LeadingDigits(s[1..])
  }

  lemma {:induction false} AllDigits(s: string)
    requires forall i :: 0 <= i < |s| ==> IsNum(s[i])
    ensures LeadingDigits(s) == s
  {
    if s != "" {
      AllDigits(s[1..]);
      assert [s[0]] + s[1..] == s;
    }
  }

  /** `fmt.Sscanf` with `%d` into a zero `uint32`: blanks are skipped, the digits that follow are
      read, and what comes after them is ignored. Without digits, or when the number does not
      fit, the zero stays. */
  function ScanWord(s: string): Word {
    if s != "" && s[0] in {' ', '\t', '\r'} then ScanWord(s[1..])
    else
      var n := Value(LeadingDigits(s));
      if n < LIMIT then n else 0
  }

  lemma ScanDecimal(n: Word)
    ensures ScanWord(Decimal(n)) == n
    ensures ':' !in Decimal(n) && '/' !in Decimal(n)
  {
    hide Decimal, Value, LeadingDigits;
    AllDigits(Decimal(n));
    ValueOfDecimal(n);
  }

  /** Blanks before a number and whatever follows its digits do not matter; without digits, and for
      a number that does not fit, the result is zero. */
  lemma {:induction false} ScanPadded(blanks: string, n: nat, rest: string)
    requires (forall c <- blanks :: c == ' ' || c == '\t' || c == '\r') && (rest != "" ==> !IsNum(rest[0]))
    ensures ScanWord(blanks + Decimal(n) + rest) == if n < 0x1_0000_0000 then n else 0
    ensures rest != "" && rest[0] != ' ' && rest[0] != '\t' && rest[0] != '\r' ==> ScanWord(blanks + rest) == 0
    decreases |blanks|
  {
    hide Decimal, Value, LeadingDigits;
    if blanks == "" {
      assert blanks + Decimal(n) + rest == Decimal(n) + rest && blanks + rest == rest;
      ScanNumber(n, rest);
    } else {
      var s, t := blanks + Decimal(n) + rest, blanks + rest;
      assert blanks[0] in blanks && forall c <- blanks[1..] :: c in blanks;
      assert s[0] == blanks[0] && s[1..] == blanks[1..] + Decimal(n) + rest;
      assert t[0] == blanks[0] && t[1..] == blanks[1..] + rest;
      ScanPadded(blanks[1..], n, rest);
    }
  }

  lemma ScanNumber(n: nat, rest: string)
    requires rest != "" ==> !IsNum(rest[0])
    ensures ScanWord(Decimal(n) + rest) == if n < 0x1_0000_0000 then n else 0
    ensures rest != "" && rest[0] != ' ' && rest[0] != '\t' && rest[0] != '\r' ==> ScanWord(rest) == 0
  {
    hide Decimal;
    var d := Decimal(n);
    assert (d + rest)[0] == d[0] && IsNum(d[0]);
    DigitsThen(d, rest);
    ValueOfDecimal(n);
  }

  lemma {:induction false} DigitsThen(digits: string, rest: string)
    requires (forall i :: 0 <= i < |digits| ==> IsNum(digits[i])) && (rest != "" ==> !IsNum(rest[0]))
    ensures LeadingDigits(digits + rest) == digits
    decreases |digits|
  {
    if digits == "" {
      assert digits + rest == rest;
    } else {
      assert (digits + rest)[1..] == digits[1..] + rest;
      DigitsThen(digits[1..], rest);
      assert [digits[0]] + digits[1..] == digits;
    }
  }

  // ---------- Ports ----------

  datatype Port = Port(hostIP: string, published: string, target: Word, protocol: string)

  function LastIndexOf(s: string, c: char): (i: nat)
    requires c in s
    ensures i < |s| && s[i] == c && c !in s[i + 1..]
  {
    if s[|s| - 1] == c then |s| - 1
    else
      assert s == s[..|s| - 1] + [s[|s| - 1]];
      var i := LastIndexOf(s[..|s| - 1], c);
      assert s[i + 1..] == s[..|s| - 1][i + 1..] + [s[|s| - 1]];
      i
  }

  function PortOfParts(parts: seq<string>, protocol: string): Port
    requires 0 < |parts| <= 3
  {
    if |parts| == 1 then Port("", "", ScanWord(parts[0]), protocol)
    else if |parts| == 2 then Port("", parts[0], ScanWord(parts[1]), protocol)
    else Port(parts[0], parts[1], ScanWord(parts[2]), protocol)
  }

  function ParsePort(s: string): Port {
    if '/' in s then
      var i := LastIndexOf(s, '/');
      PortOfParts(SplitN(s[..i], ':', 3), s[i + 1..])
    else PortOfParts(SplitN(s, ':', 3), "tcp")
  }

  method ParsePortString(s: string) returns (pc: Port)
    ensures pc == ParsePort(s)
  {
    pc := Port("", "", 0, "tcp");
    var portPart := s;
    if '/' in s {
      var idx := LastIndexOf(s, '/');
      pc := pc.(protocol := s[idx + 1..]);
      portPart := s[..idx];
    }
    var parts := SplitN(portPart, ':', 3);
    if |parts| == 1 {
      pc := pc.(target := ScanWord(parts[0]));
    } else if |parts| == 2 {
      pc := pc.(published := parts[0], target := ScanWord(parts[1]));
    } else {
      pc := pc.(hostIP := parts[0], published := parts[1], target := ScanWord(parts[2]));
    }
  }

  /** The part of the printed port before the protocol. */
  function PrintedAddress(p: Port): string {
    (if p.hostIP != "" then p.hostIP + ":" else "") + (if p.published != "" then p.published + ":" else "") + Decimal(p.target)
  }

  function PrintPort(p: Port): string {
    PrintedAddress(p) + if p.protocol != "" && p.protocol != "tcp" then "/" + p.protocol else ""
  }

  method PortConfigToString(p: Port) returns (s: string)
    ensures s == PrintPort(p)
  {
    s := "";
    if p.hostIP != "" {
      s := p.hostIP + ":";
    }
    if p.published != "" {
      s := s + p.published + ":";
    }
    s := s + Decimal(p.target);
    if p.protocol != "" && p.protocol != "tcp" {
      s := s + "/" + p.protocol;
    }
  }

  /** The port configurations that survive being printed and parsed. */
  predicate PrintablePort(p: Port) {
    && p.protocol != "" && '/' !in p.protocol
    && ':' !in p.hostIP && ':' !in p.published
    && (p.hostIP != "" ==> p.published != "")
    && (p.protocol == "tcp" ==> '/' !in p.hostIP && '/' !in p.published)
  }

  lemma {:induction false} LastIndex(s: string, c: char, i: nat)
    requires i < |s| && s[i] == c && c !in s[i + 1..]
    ensures LastIndexOf(s, c) == i
  {
    if i < |s| - 1 {
      var front := s[..|s| - 1];
      assert s[|s| - 1] in s[i + 1..];
      assert s[i + 1..] == front[i + 1..] + [s[|s| - 1]];
      LastIndex(front, c, i);
    }
  }

  /** How a printed address is split again. */
  lemma PartsOfAddress(p: Port)
    ensures ':' !in p.hostIP && ':' !in p.published && (p.hostIP != "" ==> p.published != "")
      <==> PortOfParts(SplitN(PrintedAddress(p), ':', 3), p.protocol) == p
  {
    FieldsHaveNoColon(PrintedAddress(p), p.protocol);
    if ':' !in p.hostIP && ':' !in p.published {
      PartsWithoutColon(p);
    }
  }

  lemma PartsWithoutColon(p: Port)
    requires ':' !in p.hostIP && ':' !in p.published
    ensures PortOfParts(SplitN(PrintedAddress(p), ':', 3), p.protocol)
      == if p.published == "" then Port("", p.hostIP, p.target, p.protocol) else p
  {
    hide Decimal, ScanWord;
    var d, s := Decimal(p.target), PrintedAddress(p);
    ScanDecimal(p.target);
    assert SplitN(d, ':', 1) == [d] && SplitN(d, ':', 2) == [d] && SplitN(d, ':', 3) == [d];
    if p.hostIP == "" && p.published == "" {
      assert s == d;
    } else if p.hostIP == "" || p.published == "" {
      var first := p.hostIP + p.published;
      assert s == first + ":" + d;
      SplitNFirst(first, d, ':', 3);
    } else {
      assert s == p.hostIP + ":" + (p.published + ":" + d);
      SplitNFirst(p.hostIP, p.published + ":" + d, ':', 3);
      SplitNFirst(p.published, d, ':', 2);
    }
  }

  /** Host and published port of a parsed address never contain a colon. */
  lemma FieldsHaveNoColon(s: string, protocol: string)
    ensures var p := PortOfParts(SplitN(s, ':', 3), protocol); ':' !in p.hostIP && ':' !in p.published
  {
    if ':' in s {
      var i := IndexOf(s, ':');
      assert SplitN(s, ':', 3)[1..] == SplitN(s[i + 1..], ':', 2);
    }
  }

  /** Parsing a printed port gives the port back, exactly for the printable ones. */
  lemma PortRoundTrip(p: Port)
    ensures ParsePort(PrintPort(p)) == p <==> PrintablePort(p)
  {
    hide PrintedAddress, PortOfParts;
    var address, s := PrintedAddress(p), PrintPort(p);
    PartsOfAddress(p);
    SlashInAddress(p);
    if p.protocol == "" || p.protocol == "tcp" {
      assert s == address;
      PlainProtocol(p);
    } else {
      assert s == address + "/" + p.protocol && s[|address|] == '/';
      assert s[..|address|] == address && s[|address| + 1..] == p.protocol;
      if '/' !in p.protocol {
        LastIndex(s, '/', |address|);
      }
      ProtocolOf(s);
    }
  }

  /** The protocol of a parsed port is what follows the last slash, or tcp. */
  lemma ProtocolOf(s: string)
    ensures ParsePort(s).protocol == if '/' in s then s[LastIndexOf(s, '/') + 1..] else "tcp"
    ensures '/' !in ParsePort(s).protocol
  {
  }

  /** Without a printed protocol, a slash in the address is taken for the start of one, which
      then ends in a digit. */
  lemma PlainProtocol(p: Port)
    ensures '/' in PrintedAddress(p) ==> ParsePort(PrintedAddress(p)).protocol != "tcp"
    ensures ParsePort(PrintedAddress(p)).protocol != ""
  {
    var s, d := PrintedAddress(p), Decimal(p.target);
    ProtocolOf(s);
    assert s[|s| - 1] == d[|d| - 1] && IsNum(d[|d| - 1]);
    if '/' in s {
      var i := LastIndexOf(s, '/');
      var rest := s[i + 1..];
      assert i < |s| - 1;
      assert rest[|rest| - 1] == s[|s| - 1];
      assert "tcp"[2] == 'p';
    }
  }

  lemma SlashInAddress(p: Port)
    ensures '/' in PrintedAddress(p) <==> '/' in p.hostIP || '/' in p.published
  {
    ScanDecimal(p.target);
  }

  // ---------- Volumes ----------

  datatype VolumeType = Bind | Volume

  datatype VolumeConfig = VolumeConfig(kind: VolumeType, source: string, target: string, readOnly: bool)

  predicate IsPathLike(s: string) {
    "/" <= s || "." <= s
  }

  function ParseVolume(s: string): VolumeConfig {
    var parts := SplitN(s, ':', 3);
    if |parts| == 1 then
      if IsPathLike(s) then VolumeConfig(Bind, "", s, false) else VolumeConfig(Volume, s, s, false)
    else VolumeConfig(Bind, parts[0], parts[1], |parts| == 3 && parts[2] == "ro")
  }

  method ParseVolumeString(s: string) returns (vc: VolumeConfig)
    ensures vc == ParseVolume(s)
  {
    var parts := SplitN(s, ':', 3);
    vc := VolumeConfig(Bind, "", "", false);
    if |parts| == 1 {
      vc := vc.(target := parts[0]);
      if !IsPathLike(parts[0]) {
        vc := vc.(kind := Volume, source := parts[0]);
      }
    } else if |parts| == 2 {
      vc := vc.(source := parts[0], target := parts[1]);
    } else {
      vc := vc.(source := parts[0], target := parts[1]);
      if parts[2] == "ro" {
        vc := vc.(readOnly := true);
      }
    }
  }

  function PrintVolume(v: VolumeConfig): string {
    (if v.source != "" then v.source + ":" else "") + v.target + if v.readOnly then ":ro" else ""
  }

  method VolumeConfigToString(v: VolumeConfig) returns (s: string)
    ensures s == PrintVolume(v)
  {
    s := "";
    if v.source != "" {
      s := v.source + ":";
    }
    s := s + v.target;
    if v.readOnly {
      s := s + ":ro";
    }
  }

  /** The volume configurations that survive being printed and parsed. */
  predicate PrintableVolume(v: VolumeConfig) {
    && ':' !in v.source && ':' !in v.target
    && if v.source != "" then v.kind == Bind
       else !v.readOnly && if v.target == "" then v.kind == Volume else IsPathLike(v.target) && v.kind == Bind
  }

  /** Source and target of a parsed volume never contain a colon. */
  lemma VolumeHasNoColon(s: string)
    ensures ':' !in ParseVolume(s).source && ':' !in ParseVolume(s).target
  {
    if ':' in s {
      var i := IndexOf(s, ':');
      assert SplitN(s, ':', 3)[1..] == SplitN(s[i + 1..], ':', 2);
    }
  }

  /** Parsing a printed volume gives the volume back, exactly for the printable ones. */
  lemma VolumeRoundTrip(v: VolumeConfig)
    ensures ParseVolume(PrintVolume(v)) == v <==> PrintableVolume(v)
  {
    var s := PrintVolume(v);
    VolumeHasNoColon(s);
    if ':' !in v.source && ':' !in v.target {
      if v.source == "" {
        SourcelessVolume(v);
      } else if v.readOnly {
        assert s == v.source + ":" + (v.target + ":" + "ro");
        SplitNFirst(v.source, v.target + ":" + "ro", ':', 3);
        SplitNFirst(v.target, "ro", ':', 2);
      } else {
        assert s == v.source + ":" + v.target;
        SplitNFirst(v.source, v.target, ':', 3);
      }
    }
  }

  /** A third field makes the volume read-only when it is "ro", and is ignored otherwise. */
  lemma VolumeMode(source: string, target: string, mode: string)
    requires ':' !in source && ':' !in target
    ensures ParseVolume(source + ":" + target + ":" + mode) == VolumeConfig(Bind, source, target, mode == "ro")
  {
    hide SplitN;
    ThreeFields(source, target, mode);
  }

  lemma ThreeFields(source: string, target: string, mode: string)
    requires ':' !in source && ':' !in target
    ensures SplitN(source + ":" + target + ":" + mode, ':', 3) == [source, target, mode]
  {
    var rest := target + ":" + mode;
    assert source + ":" + target + ":" + mode == source + ":" + rest;
    SplitNFirst(source, rest, ':', 3);
    SplitNFirst(target, mode, ':', 2);
    assert SplitN(mode, ':', 1) == [mode];
  }

  lemma SourcelessVolume(v: VolumeConfig)
    requires v.source == "" && ':' !in v.target
    ensures ParseVolume(PrintVolume(v)) == v <==> PrintableVolume(v)
  {
    if v.readOnly {
      assert PrintVolume(v) == v.target + ":" + "ro";
      SplitNFirst(v.target, "ro", ':', 3);
    } else {
      assert PrintVolume(v) == v.target;
    }
  }
}
