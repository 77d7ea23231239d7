/**
 Registry keys. Userspace formats "<name>_1" and "<name>_2" (register_vm.h); the kernel
 programs rebuild the same keys from the stored name with a copy loop (create_maps.bpf.c and
 timer.bpf.c). BPF compares all 64 bytes.
 */
module VmKeys {

  const NAME_LEN: nat := 64

  /** A C string that fits a char[64]: its characters up to the terminator. */
  ghost predicate NoNul(s: string) {
    forall i :: 0 <= i < |s| ==> s[i] != '\0'
  }

  function Nuls(n: nat): (r: string)
    ensures |r| == n && forall i :: 0 <= i < n ==> r[i] == '\0'
  {
    seq(n, _ => '\0')
  }

  /** Zero-padded to 64 bytes. */
  function Pad(s: string): (r: string)
    requires |s| <= NAME_LEN
    ensures |r| == NAME_LEN
  {
    s + Nuls(NAME_LEN - |s|)
  }

  /** What strncpy and snprintf keep of a string: 63 bytes. */
  function Truncated(s: string): (r: string)
    ensures |r| <= NAME_LEN - 1
  {
    if |s| <= NAME_LEN - 1 then s else s[..NAME_LEN - 1]
  }

  /** A char[64] name field, and the key of the vms map. */
  function Field(name: string): string {
    Pad(Truncated(name))
  }

  /** The userspace key for buffer '1' or '2'. */
  function UserKey(name: string, digit: char): string {
    Pad(Truncated(name + ['_', digit]))
  }

  /** Where the kernel's copy loop stops: at the terminator, or after 61 characters. */
  function CopyEnd(field: string, i: nat): (e: nat)
    requires |field| == NAME_LEN && i <= NAME_LEN - 3
    ensures i <= e <= NAME_LEN - 3
    ensures forall k :: i <= k < e ==> field[k] != '\0'
    ensures e < NAME_LEN - 3 ==> field[e] == '\0'
    decreases NAME_LEN - i
  {
    if i == NAME_LEN - 3 || field[i] == '\0' then i else CopyEnd(field, i + 1)
  }

  /** The kernel's key for a stored name. */
  function KernelKey(field: string, digit: char): string
    requires |field| == NAME_LEN
  {
    Pad(field[..CopyEnd(field, 0)] + ['_', digit])
  }

  /** Append "_1" or "_2" and the terminator behind i copied characters. */
  method AppendSuffix(buff: array<char>, name: string, digit: char)
    requires buff.Length == NAME_LEN && |name| <= NAME_LEN - 3
    requires forall k :: 0 <= k < NAME_LEN ==> buff[k] == if k < |name| then name[k] else '\0'
    modifies buff
    ensures buff[..] == Pad(name + ['_', digit])
  {
    var i := |name|;
    buff[i] := '_';
    buff[i + 1] := digit;
    buff[i + 2] := '\0';
  }

  /** The copy loop and the two suffixes, as both programs write them. */
  method BuildKeys(field: string) returns (buff1: array<char>, buff2: array<char>)
    requires |field| == NAME_LEN
    ensures buff1[..] == KernelKey(field, '1')
    ensures buff2[..] == KernelKey(field, '2')
  {
    buff1 := new char[NAME_LEN](_ => '\0');
    buff2 := new char[NAME_LEN](_ => '\0');
    var i := 0;
    while i < NAME_LEN - 3
      invariant 0 <= i <= NAME_LEN - 3 && buff1 != buff2
      invariant CopyEnd(field, 0) == CopyEnd(field, i)
      invariant forall k :: 0 <= k < NAME_LEN ==> buff1[k] == if k < i then field[k] else '\0'
      invariant forall k :: 0 <= k < NAME_LEN ==> buff2[k] == if k < i then field[k] else '\0'
    {
      var c := field[i];
      buff1[i], buff2[i] := c, c;
      if c == '\0' {
        break;
      }
      i := i + 1;
    }
    assert i == CopyEnd(field, 0);
    AppendSuffix(buff1, field[..i], '1');
    AppendSuffix(buff2, field[..i], '2');
  }

  /** Reading a padded string: its characters, then a terminator. */
  lemma PadAt(s: string)
    requires NoNul(s) && |s| < NAME_LEN
    ensures Pad(s)[|s|] == '\0' && forall i :: 0 <= i < |s| ==> Pad(s)[i] == s[i] != '\0'
  {
  }

  /** The copy loop recovers a stored name, cut to 61 characters. */
  lemma CopyOfField(name: string)
    requires NoNul(name)
    ensures var e := CopyEnd(Field(name), 0);
      e == (if |name| <= 61 then |name| else 61) && Field(name)[..e] == name[..e]
  {
    PadAt(Truncated(name));
    var e := CopyEnd(Field(name), 0);
    assert e == if |name| <= 61 then |name| else 61;
  }

  /** The kernel and userspace build the same two keys exactly for names of at most 61 characters. */
  lemma KeysAgreeIff(name: string)
    requires NoNul(name)
    ensures (KernelKey(Field(name), '1') == UserKey(name, '1') && KernelKey(Field(name), '2') == UserKey(name, '2'))
      <==> |name| <= 61
  {
    CopyOfField(name);
    if |name| <= 61 {
      assert name[..|name|] == name;
    } else {
      var k1, k2 := KernelKey(Field(name), '1'), KernelKey(Field(name), '2');
      var u1, u2 := UserKey(name, '1'), UserKey(name, '2');
      assert k1[62] == '1' && k2[62] == '2';
      if |name| == 62 {
        assert u1[62] == '_';
      } else {
        assert u1[62] == u2[62] == name[62];
      }
    }
  }

  lemma PadInjective(s: string, t: string)
    requires NoNul(s) && NoNul(t) && |s| <= 63 && |t| <= 63 && Pad(s) == Pad(t)
    ensures s == t
  {
    PadAt(s);
    PadAt(t);
    assert |s| == |t|;
    assert s == Pad(s)[..|s|] && t == Pad(t)[..|t|];
  }

  /** Different VMs, or different buffers of one VM, never share a key. */
  lemma UserKeyInjective(n: string, d: char, m: string, e: char)
    requires NoNul(n) && NoNul(m) && |n| <= 61 && |m| <= 61 && d != '\0' && e != '\0'
    requires UserKey(n, d) == UserKey(m, e)
    ensures n == m && d == e
  {
    var s, t := n + ['_', d], m + ['_', e];
    PadInjective(s, t);
    assert n == s[..|s| - 2] && m == t[..|t| - 2];
    assert d == s[|s| - 1] && e == t[|t| - 1];
  }
}
