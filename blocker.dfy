/** `ip/blocker.py`: a firewall rule dropping every packet from an address,
    then a purge of the capture directory. The command runs outside the
    program: its exit status is a parameter. */
module Blocker {
  import opened Seqs
  import Analyzer
  import Remover

  /** `COMMAND`: `iptables` on POSIX systems, `netsh` otherwise. */
  function Command(platform: Analyzer.Platform, ip: string): (cmd: seq<string>)
    ensures platform.Posix? ==> |cmd| == 7 && cmd[0] == "iptables" && cmd[4] == ip
    ensures platform.Windows? ==>
      && |cmd| == 10 && cmd[0] == "netsh"
      && cmd[5] == "name=Block " + ip && cmd[8] == "remoteip=" + ip
  {
    if platform.Posix? then
      ["iptables", "-A", "INPUT", "-s", ip, "-j", "DROP"]
    else
      ["netsh", "advfirewall", "firewall", "add", "rule", "name=Block " + ip,
       "dir=in", "action=block", "remoteip=" + ip, "enable=yes"]
  }

  /** The positions the address is written at. */
  predicate AddressSlot(platform: Analyzer.Platform, i: nat) {
    if platform.Posix? then i == 4 else i == 5 || i == 8
  }

  /** Only the address slots depend on the address: any two commands for the
      same platform agree everywhere else. */
  lemma CommandFixedParts(platform: Analyzer.Platform, a: string, b: string)
    ensures |Command(platform, a)| == |Command(platform, b)|
    ensures forall i :: 0 <= i < |Command(platform, a)| && !AddressSlot(platform, i) ==>
      Command(platform, a)[i] == Command(platform, b)[i]
  {
  }

  /** Different addresses give different commands. */
  lemma CommandInjective(platform: Analyzer.Platform, a: string, b: string)
    requires Command(platform, a) == Command(platform, b)
    ensures a == b
  {
    if platform.Windows? {
      var x, y := Command(platform, a)[8], Command(platform, b)[8];
      assert x[9..] == a && y[9..] == b;
    }
  }

  /** `block(ip)` with the exit status of the command: success purges every
      capture file, the segment being written included; failure leaves the
      directory as it was. */
  method Block(dir: Remover.PcapDir, platform: Analyzer.Platform, ip: string, exitCode: int)
    returns (blocked: bool, command: seq<string>)
    requires dir.Valid()
    modifies dir
    ensures dir.Valid() && dir.present == old(dir.present)
    ensures command == Command(platform, ip)
    ensures blocked <==> exitCode == 0
    ensures blocked ==> dir.files == []
    ensures !blocked ==> dir.files == old(dir.files)
  {
    command := Command(platform, ip);
    if exitCode == 0 {
      ghost var before := dir.files;
      var _ := dir.RemoveAll([], Remover.RemovedMode);
      KeepNothing(before);
      blocked := true;
    } else {
      blocked := false;
    }
  }

  /** `[x for x in s if x in []]` is empty. */
  lemma KeepNothing(s: seq<string>)
    ensures Keep(s, []) == []
  {
    var r := Keep(s, []);
    if r != [] {
      KeepMember(s, [], r[0]);
    }
  }
}
