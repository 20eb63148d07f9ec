/** libminijail.c: a jail's configuration as a byte string, and back. */
module Marshal {
  import opened Common

  type Byte = b: int | 0 <= b < 0x100

  type Bytes = seq<Byte>

  // ----- little-endian numbers -----

  function Pow256(n: nat): nat { if n == 0 then 1 else 0x100 * Pow256(n - 1) }

  function ToLE(v: nat, n: nat): (b: Bytes)
    ensures |b| == n
  {
    if n == 0 then [] else [v % 0x100] + ToLE(v / 0x100, n - 1)
  }

  function FromLE(b: Bytes): nat { if b == [] then 0 else b[0] + 0x100 * FromLE(b[1..]) }

  lemma {:induction false} LERoundTrip(v: nat, n: nat)
    requires v < Pow256(n)
    ensures FromLE(ToLE(v, n)) == v
  {
    if n > 0 {
      LERoundTrip(v / 0x100, n - 1);
      assert ToLE(v, n)[1..] == ToLE(v / 0x100, n - 1);
    }
  }

  /** The least significant byte comes first. */
  lemma LittleEndian(a: Byte, b: Byte, c: Byte, d: Byte)
    ensures ToLE(a + 0x100 * b + 0x1_0000 * c + 0x100_0000 * d, 4) == [a, b, c, d]
  {
    var v := a + 0x100 * b + 0x1_0000 * c + 0x100_0000 * d;
    assert v / 0x100 == b + 0x100 * c + 0x1_0000 * d;
    assert v / 0x100 / 0x100 == c + 0x100 * d;
    assert ToLE(d, 1) == [d];
    assert ToLE(c + 0x100 * d, 2) == [c, d];
    assert ToLE(b + 0x100 * c + 0x1_0000 * d, 3) == [b, c, d];
  }

  lemma PowersOf256()
    ensures Pow256(4) == 0x1_0000_0000 && Pow256(8) == 0x1_0000_0000_0000_0000
  {
    assert Pow256(2) == 0x1_0000;
    assert Pow256(4) == 0x1_0000_0000;
    assert Pow256(6) == 0x1_0000_0000_0000;
  }

  type U32 = v: int | 0 <= v < 0x1_0000_0000
  type U64 = v: int | 0 <= v < 0x1_0000_0000_0000_0000

  // ----- the jail -----

  // A C string: no NUL inside.
  type CStr = s: Bytes | 0 !in s

  datatype Mount = Mount(src: CStr, dest: CStr, fstype: CStr, data: Option<CStr>, flags: U64)

  datatype FsRule = FsRule(path: CStr, flags: U64)

  /** What the structure refers to and no byte string carries: only the pointers are copied, and the
      reader clears them. */
  datatype Unsent = Unsent(
    preloadPath: Option<CStr>, filename: Option<CStr>, pidFilePath: Option<CStr>,
    uidmap: Option<CStr>, gidmap: Option<CStr>,
    remounts: seq<CStr>, hooks: seq<nat>)

  const CLEARED: Unsent := Unsent(None, None, None, None, None, [], [])

  /** struct minijail. `rest` is every byte of the structure that is neither a pointer nor looked at
      by the reader, and is copied as it stands. */
  datatype Jail = Jail(
    user: Option<CStr>,
    gids: Option<seq<U32>>,
    chrootdir: Option<CStr>,
    hostname: Option<CStr>,
    altTable: Option<CStr>,
    useFilter: bool,                // flags.seccomp_filter
    filterLen: U64,
    filter: Option<Bytes>,          // filter_prog, eight bytes an instruction
    enterVfs: bool,
    vfs: bool,
    mounts: seq<Mount>,
    cgroups: seq<CStr>,
    fsRules: seq<FsRule>,
    fsRulesFd: U32,
    policyPath: Option<CStr>,
    unsent: Unsent,
    rest: Bytes)

  const NGROUPS_MAX: nat := 65536
  const MAX_CGROUPS: nat := 10
  const USHRT_MAX: nat := 65535

  // ----- what the public API guarantees -----

  const TMPFS: CStr := [116, 109, 112, 102, 115]
  const TMPFS_DATA: CStr := [109, 111, 100, 101, 61, 48, 55, 53, 53, 44, 115, 105, 122, 101, 61, 49, 48, 77]
  const DEFAULT_MOUNT_FLAGS: U64 := 14   // MS_NOSUID | MS_NODEV | MS_NOEXEC

  /** minijail_mount_with_data: defaults are filled in, and a mount namespace is forced unless an
      existing one is entered. None when the destination is not absolute. */
  function AddMount(j: Jail, src: CStr, dest: CStr, fstype: CStr, flags: U64, data: Option<CStr>): Option<Jail> {
    if |dest| == 0 || dest[0] != 47 then None
    else
      var data' := if (data.None? || data.value == []) && fstype == TMPFS then Some(TMPFS_DATA) else data;
      var flags' := if flags == 0 then DEFAULT_MOUNT_FLAGS else flags;
      Some(j.(mounts := j.mounts + [Mount(src, dest, fstype, data', flags')],
              vfs := j.vfs || !j.enterVfs))
  }

  predicate NormalMount(m: Mount) {
    && |m.dest| > 0 && m.dest[0] == 47
    && m.flags != 0
    && (m.fstype == TMPFS ==> m.data.Some? && m.data.value != [])
  }

  /** Every stored mount is normal, and adding a normal mount again stores it unchanged. */
  lemma AddMountNormalizes(j: Jail, src: CStr, dest: CStr, fstype: CStr, flags: U64, data: Option<CStr>)
    ensures var r := AddMount(j, src, dest, fstype, flags, data);
            r.Some? ==>
              var m := r.value.mounts[|j.mounts|];
              && NormalMount(m)
              && forall k: Jail :: AddMount(k, m.src, m.dest, m.fstype, m.flags, m.data) ==
                   Some(k.(mounts := k.mounts + [m], vfs := k.vfs || !k.enterVfs))
  {
  }

  const NOSUID: nat := 2
  const NODEV: nat := 4
  const NOEXEC: nat := 8

  const TMPFS_OPTIONS: string := "mode=0755,size=10M"

  /** What is stored: source, destination and type as given; nosuid, nodev and noexec when no flags
      are; a mode and a size for a tmpfs without options. All earlier mounts stay, and the mounts get
      a namespace of their own unless one is entered. */
  lemma MountStored(j: Jail, src: CStr, dest: CStr, fstype: CStr, flags: U64, data: Option<CStr>)
    ensures var r := AddMount(j, src, dest, fstype, flags, data);
      && (r.Some? <==> dest != [] && dest[0] as char == '/')
      && (r.Some? ==>
            && r.value == j.(mounts := r.value.mounts, vfs := j.vfs || !j.enterVfs)
            && |r.value.mounts| == |j.mounts| + 1 && r.value.mounts[..|j.mounts|] == j.mounts
            && var m := r.value.mounts[|j.mounts|];
               && m.src == src && m.dest == dest && m.fstype == fstype
               && m.flags == (if flags == 0 then NOSUID + NODEV + NOEXEC else flags)
               && (if Spelled(fstype, "tmpfs") && (data.None? || data == Some([]))
                   then m.data.Some? && Spelled(m.data.value, TMPFS_OPTIONS) else m.data == data))
  {
  }

  // The bytes of a text.
  predicate Spelled(b: Bytes, text: string) {
    |b| == |text| && forall i :: 0 <= i < |b| ==> b[i] as char == text[i]
  }

  /** A rule is appended as it is, and only the first sets the descriptor. */
  lemma RuleStored(j: Jail, path: CStr, mask: U64, fd: U32)
    ensures var r := AddRule(j, path, mask, fd);
      && |r.fsRules| == |j.fsRules| + 1 && r.fsRules[..|j.fsRules|] == j.fsRules
      && r.fsRules[|j.fsRules|].path == path && r.fsRules[|j.fsRules|].flags == mask
      && r.fsRulesFd == (if |j.fsRules| == 0 then fd else j.fsRulesFd)
      && r == j.(fsRules := r.fsRules, fsRulesFd := r.fsRulesFd)
  {
  }

  /** What the API keeps true of a jail, apart from Readable. */
  predicate Stored(j: Jail) {
    && (j.gids.Some? ==> 1 <= |j.gids.value| <= NGROUPS_MAX)
    && (j.filter.Some? <==> j.filterLen > 0)
    && (j.filter.Some? ==> |j.filter.value| == 8 * j.filterLen && j.filterLen <= USHRT_MAX)
    && (forall i :: 0 <= i < |j.mounts| ==> NormalMount(j.mounts[i]))
    && (j.mounts != [] ==> j.vfs || j.enterVfs)
    && |j.cgroups| <= MAX_CGROUPS
    && Countable(j)
  }

  /** The reader takes a zero Landlock mask and a zero rules descriptor for errors. */
  predicate Readable(j: Jail) {
    RulesReadable(j.fsRules) && j.fsRulesFd != 0
  }

  predicate RulesReadable(rs: seq<FsRule>) {
    forall i :: 0 <= i < |rs| ==> rs[i].flags != 0
  }

  predicate ApiBuilt(j: Jail) { Stored(j) && Readable(j) }

  const NEW_JAIL: Jail :=
    Jail(None, None, None, None, None, false, 0, None, false, false, [], [], [], 0xffff_ffff, None, CLEARED, [])

  lemma NewJailIsBuilt()
    ensures ApiBuilt(NEW_JAIL)
  {
  }

  /** A mount added through the API keeps the jail storable. */
  lemma AddMountKeepsStored(j: Jail, src: CStr, dest: CStr, fstype: CStr, flags: U64, data: Option<CStr>)
    requires Stored(j) && |j.mounts| < 0xffff_ffff
    ensures var r := AddMount(j, src, dest, fstype, flags, data);
            r.Some? ==> Stored(r.value) && (Readable(j) ==> Readable(r.value))
  {
    var r := AddMount(j, src, dest, fstype, flags, data);
    if r.Some? {
      AddMountNormalizes(j, src, dest, fstype, flags, data);
      hide NormalMount;
      assert r.value.mounts == j.mounts + [r.value.mounts[|j.mounts|]];
    }
  }

  /** So does a rule, and the jail stays readable when the mask and the new descriptor are not zero. */
  lemma AddRuleKeepsStored(j: Jail, path: CStr, mask: U64, fd: U32)
    requires Stored(j) && |j.fsRules| < 0xffff_ffff
    ensures Stored(AddRule(j, path, mask, fd))
    ensures Readable(j) && mask != 0 && fd != 0 ==> Readable(AddRule(j, path, mask, fd))
  {
    hide NormalMount;
  }

  /** add_fs_restriction_path: the first rule also sets up the rules descriptor. */
  function AddRule(j: Jail, path: CStr, mask: U64, fd: U32): Jail {
    j.(fsRules := j.fsRules + [FsRule(path, mask)], fsRulesFd := if j.fsRules == [] then fd else j.fsRulesFd)
  }

  // The counts fit the structure's fields.
  predicate Countable(j: Jail) {
    && |j.mounts| < 0x1_0000_0000_0000_0000 && |j.fsRules| < 0x1_0000_0000_0000_0000
    && |j.cgroups| <= MAX_CGROUPS
    && (j.gids.Some? ==> |j.gids.value| < 0x1_0000_0000_0000_0000)
  }

  // ----- serialization -----

  /** Addresses of the strings and lists: they are copied with the structure, and only whether
      they are null matters to the reader. */
  type Address = a: U64 | a != 0 witness 1

  datatype Addresses = Addresses(
    user: Address, gids: Address, chrootdir: Address, hostname: Address, altTable: Address, policyPath: Address,
    preloadPath: Address, filename: Address, pidFilePath: Address, uidmap: Address, gidmap: Address,
    remountsHead: Address, remountsTail: Address, hooksHead: Address, hooksTail: Address)

  function Pointer<T>(x: Option<T>, a: Address): U64 { if x.Some? then a else 0 }

  function ListPointer<T>(x: seq<T>, a: Address): U64 { if |x| > 0 then a else 0 }

  function Flag(b: bool): U64 { if b then 1 else 0 }

  // The words of the structure that the reader looks at, and then the rest of it.
  function Words(j: Jail, a: Addresses): seq<U64>
    requires Countable(j)
  {
    [ Pointer(j.user, a.user), Pointer(j.gids, a.gids), if j.gids.Some? then |j.gids.value| else 0,
      Pointer(j.chrootdir, a.chrootdir), Pointer(j.hostname, a.hostname), Pointer(j.altTable, a.altTable),
      Flag(j.useFilter), j.filterLen, Flag(j.enterVfs), Flag(j.vfs),
      |j.mounts|, |j.cgroups|, |j.fsRules|, Pointer(j.policyPath, a.policyPath) ] + StaleWords(j.unsent, a)
  }

  // The pointers to what is not sent.
  function StaleWords(u: Unsent, a: Addresses): (w: seq<U64>)
    ensures |w| == 9
  {
    [ Pointer(u.preloadPath, a.preloadPath), Pointer(u.filename, a.filename), Pointer(u.pidFilePath, a.pidFilePath),
      Pointer(u.uidmap, a.uidmap), Pointer(u.gidmap, a.gidmap),
      ListPointer(u.remounts, a.remountsHead), ListPointer(u.remounts, a.remountsTail),
      ListPointer(u.hooks, a.hooksHead), ListPointer(u.hooks, a.hooksTail) ]
  }

  const WORDS: nat := 23

  function WordBytes(ws: seq<U64>): (b: Bytes)
    ensures |b| == 8 * |ws|
  {
    if ws == [] then [] else ToLE(ws[0], 8) + WordBytes(ws[1..])
  }

  function CStrBytes(s: CStr): Bytes { s + [0] }

  function MaybeStr(s: Option<CStr>): Bytes { if s.Some? then CStrBytes(s.value) else [] }

  function GidBytes(g: seq<U32>): (b: Bytes)
    ensures |b| == 4 * |g|
  {
    if g == [] then [] else ToLE(g[0], 4) + GidBytes(g[1..])
  }

  function MountBytes(m: Mount): Bytes {
    CStrBytes(m.src) + (CStrBytes(m.dest) + (CStrBytes(m.fstype)
      + (ToLE(if m.data.Some? then 1 else 0, 4) + (MaybeStr(m.data) + ToLE(m.flags, 8)))))
  }

  function RuleBytes(r: FsRule): Bytes { CStrBytes(r.path) + ToLE(r.flags, 8) }

  function MountsBytes(ms: seq<Mount>): Bytes { if ms == [] then [] else MountBytes(ms[0]) + MountsBytes(ms[1..]) }

  function CgroupsBytes(cs: seq<CStr>): Bytes { if cs == [] then [] else CStrBytes(cs[0]) + CgroupsBytes(cs[1..]) }

  function RulesBytes(rs: seq<FsRule>): Bytes { if rs == [] then [] else RuleBytes(rs[0]) + RulesBytes(rs[1..]) }

  function FilterBytes(j: Jail): Bytes { if j.useFilter && j.filter.Some? then j.filter.value else [] }

  // What follows the lists.
  function TailBytes(j: Jail): Bytes { ToLE(j.fsRulesFd, 4) + MaybeStr(j.policyPath) }

  function ListBytes(j: Jail): Bytes {
    MountsBytes(j.mounts) + (CgroupsBytes(j.cgroups) + (RulesBytes(j.fsRules) + TailBytes(j)))
  }

  function ScalarBytes(j: Jail): Bytes {
    MaybeStr(j.user) + ((if j.gids.Some? then GidBytes(j.gids.value) else [])
      + (MaybeStr(j.chrootdir) + (MaybeStr(j.hostname) + (MaybeStr(j.altTable) + FilterBytes(j)))))
  }

  /** The byte string of a jail. */
  function Serialize(j: Jail, a: Addresses): Bytes
    requires Countable(j)
  {
    WordBytes(Words(j, a)) + (j.rest + (ScalarBytes(j) + ListBytes(j)))
  }

  // ----- the counting and writing pass -----

  lemma Assoc(x: Bytes, y: Bytes, z: Bytes)
    ensures x + y + z == x + (y + z)
  {
  }

  lemma Regroup(x: Bytes, a: Bytes, b: Bytes, c: Bytes, d: Bytes, e: Bytes, f: Bytes)
    ensures x + a + b + c + d + e + f == x + (a + (b + (c + (d + (e + f)))))
  {
    Assoc(x + a + b + c + d, e, f);
    Assoc(x + a + b + c, d, e + f);
    Assoc(x + a + b, c, d + (e + f));
    Assoc(x + a, b, c + (d + (e + f)));
    Assoc(x, a, b + (c + (d + (e + f))));
  }

  /** struct marshal_state: `stream` is everything appended so far, written or not. */
  class MarshalState {
    var available: nat
    var total: nat
    const buf: array<Byte>
    var pos: nat
    ghost var stream: Bytes
    ghost const initial: Bytes
    ghost const capacity: nat

    ghost predicate Valid()
      reads this, buf
    {
      && capacity <= buf.Length == |initial| && total == |stream|
      && pos == (if total < capacity then total else capacity)
      && available == capacity - pos
      && (forall k :: 0 <= k < pos ==> buf[k] == stream[k])
      && forall k :: pos <= k < buf.Length ==> buf[k] == initial[k]
    }

    constructor (buf: array<Byte>, available: nat)
      requires available <= buf.Length
      ensures Valid() && stream == [] && this.buf == buf && initial == buf[..] && capacity == available
    {
      this.available, this.total, this.buf, this.pos := available, 0, buf, 0;
      stream, initial, capacity := [], buf[..], available;
    }

    /** marshal_append: what fits is copied, and the whole length is counted. */
    method Append(src: Bytes)
      requires Valid()
      modifies this, buf
      ensures Valid() && stream == old(stream) + src
    {
      var n := if available < |src| then available else |src|;
      var i := 0;
      while i < n
        invariant 0 <= i <= n && pos + n <= buf.Length
        invariant pos == old(pos) && stream == old(stream) && total == old(total) && available == old(available)
        invariant forall k :: 0 <= k < buf.Length ==>
                    buf[k] == if pos <= k < pos + i then src[k - pos] else old(buf[k])
      {
        buf[pos + i] := src[i];
        i := i + 1;
      }
      pos := pos + n;
      available := available - n;
      total := total + |src|;
      stream := stream + src;
    }

    method AppendMaybe(s: Option<CStr>)
      requires Valid()
      modifies this, buf
      ensures Valid() && stream == old(stream) + MaybeStr(s)
    {
      if s.Some? {
        Append(CStrBytes(s.value));
      }
    }

    // marshal_mount
    method AppendMount(m: Mount)
      requires Valid()
      modifies this, buf
      ensures Valid() && stream == old(stream) + MountBytes(m)
    {
      hide Valid, CStrBytes, MaybeStr;
      Regroup(stream, CStrBytes(m.src), CStrBytes(m.dest), CStrBytes(m.fstype),
              ToLE(if m.data.Some? then 1 else 0, 4), MaybeStr(m.data), ToLE(m.flags, 8));
      Append(CStrBytes(m.src));
      Append(CStrBytes(m.dest));
      Append(CStrBytes(m.fstype));
      Append(ToLE(if m.data.Some? then 1 else 0, 4));
      AppendMaybe(m.data);
      Append(ToLE(m.flags, 8));
    }

    // marshal_fs_rule
    method AppendRule(r: FsRule)
      requires Valid()
      modifies this, buf
      ensures Valid() && stream == old(stream) + RuleBytes(r)
    {
      hide Valid;
      Append(CStrBytes(r.path));
      Append(ToLE(r.flags, 8));
    }

    method AppendMounts(ms: seq<Mount>)
      requires Valid()
      modifies this, buf
      ensures Valid() && stream == old(stream) + MountsBytes(ms)
    {
      hide Valid, MountBytes;
      var i := 0;
      assert ms[0..] == ms;
      while i < |ms|
        invariant 0 <= i <= |ms| && Valid()
        invariant old(stream) + MountsBytes(ms) == stream + MountsBytes(ms[i..])
      {
        assert ms[i..][0] == ms[i] && ms[i..][1..] == ms[i + 1..];
        AppendMount(ms[i]);
        i := i + 1;
      }
    }

    method AppendCgroups(cs: seq<CStr>)
      requires Valid()
      modifies this, buf
      ensures Valid() && stream == old(stream) + CgroupsBytes(cs)
    {
      hide Valid, CStrBytes;
      var i := 0;
      assert cs[0..] == cs;
      while i < |cs|
        invariant 0 <= i <= |cs| && Valid()
        invariant old(stream) + CgroupsBytes(cs) == stream + CgroupsBytes(cs[i..])
      {
        assert cs[i..][0] == cs[i] && cs[i..][1..] == cs[i + 1..];
        Append(CStrBytes(cs[i]));
        i := i + 1;
      }
    }

    method AppendRules(rs: seq<FsRule>)
      requires Valid()
      modifies this, buf
      ensures Valid() && stream == old(stream) + RulesBytes(rs)
    {
      hide Valid, RuleBytes;
      var i := 0;
      assert rs[0..] == rs;
      while i < |rs|
        invariant 0 <= i <= |rs| && Valid()
        invariant old(stream) + RulesBytes(rs) == stream + RulesBytes(rs[i..])
      {
        assert rs[i..][0] == rs[i] && rs[i..][1..] == rs[i + 1..];
        AppendRule(rs[i]);
        i := i + 1;
      }
    }

    // minijail_marshal_helper, first half
    method AppendScalars(j: Jail)
      requires Valid()
      modifies this, buf
      ensures Valid() && stream == old(stream) + ScalarBytes(j)
    {
      hide Valid, MaybeStr, GidBytes;
      Regroup(stream, MaybeStr(j.user), if j.gids.Some? then GidBytes(j.gids.value) else [], MaybeStr(j.chrootdir),
              MaybeStr(j.hostname), MaybeStr(j.altTable), FilterBytes(j));
      AppendMaybe(j.user);
      if j.gids.Some? {
        Append(GidBytes(j.gids.value));
      }
      AppendMaybe(j.chrootdir);
      AppendMaybe(j.hostname);
      AppendMaybe(j.altTable);
      if j.useFilter && j.filter.Some? {
        Append(j.filter.value);
      }
      assert forall b: Bytes :: b + [] == b;
    }

    // minijail_marshal_helper, second half
    method AppendLists(j: Jail)
      requires Valid()
      modifies this, buf
      ensures Valid() && stream == old(stream) + ListBytes(j)
    {
      hide Valid, MaybeStr, MountsBytes, CgroupsBytes, RulesBytes;
      AppendMounts(j.mounts);
      AppendCgroups(j.cgroups);
      AppendRules(j.fsRules);
      Append(ToLE(j.fsRulesFd, 4));
      AppendMaybe(j.policyPath);
    }

    /** minijail_marshal_helper */
    method AppendJail(j: Jail, a: Addresses)
      requires Valid() && Countable(j)
      modifies this, buf
      ensures Valid() && stream == old(stream) + Serialize(j, a)
    {
      hide Valid, ScalarBytes, ListBytes, WordBytes, Words;
      Append(WordBytes(Words(j, a)) + j.rest);
      AppendScalars(j);
      AppendLists(j);
    }
  }

  /** minijail_size */
  method Size(j: Jail, a: Addresses) returns (n: nat)
    requires Countable(j)
    ensures n == |Serialize(j, a)|
  {
    var none := new Byte[0];
    var state := new MarshalState(none, 0);
    state.AppendJail(j, a);
    n := state.total;
  }

  /** minijail_marshal: the buffer receives the longest prefix of the one byte string that the
      capacity allows, nothing behind it is touched, and success means that it all fitted. */
  method MarshalInto(j: Jail, a: Addresses, buf: array<Byte>, available: nat) returns (ok: bool)
    requires Countable(j) && available <= buf.Length
    modifies buf
    ensures ok <==> |Serialize(j, a)| <= available
    ensures var n := if |Serialize(j, a)| < available then |Serialize(j, a)| else available;
            buf[..n] == Serialize(j, a)[..n] && buf[n..] == old(buf[n..])
  {
    hide Serialize;
    var state := new MarshalState(buf, available);
    state.AppendJail(j, a);
    assert [] + Serialize(j, a) == Serialize(j, a);
    assert state.stream == Serialize(j, a);
    ok := state.total <= available;
  }

  // ----- reading back -----

  // consumebytes
  function ConsumeBytes(n: nat, s: Bytes): Option<(Bytes, Bytes)> {
    if n > |s| then None else Some((s[..n], s[n..]))
  }

  // strnlen
  function StrLen(s: Bytes): (n: nat)
    ensures n <= |s| && 0 !in s[..n] && (n < |s| ==> s[n] == 0)
  {
    if s == [] || s[0] == 0 then 0
    else
      var n := 1 + StrLen(s[1..]);
      assert s[..n] == [s[0]] + s[1..][..n - 1];
      n
  }

  // consumestr
  function ConsumeStr(s: Bytes): Option<(CStr, Bytes)> {
    var n := StrLen(s);
    if n == |s| then None else Some((s[..n], s[n + 1..]))
  }

  // A string that is present when its stale pointer is not null.
  function ConsumeMaybe(present: bool, s: Bytes): Option<(Option<CStr>, Bytes)> {
    if !present then Some((None, s))
    else
      var (x, t) :- ConsumeStr(s);
      Some((Some(x), t))
  }

  function Number(b: Bytes, n: nat): (v: nat)
    requires |b| == n
    ensures v < Pow256(n)
  {
    FromLEBound(b);
    FromLE(b)
  }

  lemma {:induction false} FromLEBound(b: Bytes)
    ensures FromLE(b) < Pow256(|b|)
  {
    if b != [] { FromLEBound(b[1..]); }
  }

  function ConsumeU32(s: Bytes): Option<(U32, Bytes)> {
    var (b, t) :- ConsumeBytes(4, s);
    PowersOf256();
    Some((Number(b, 4), t))
  }

  function ConsumeU64(s: Bytes): Option<(U64, Bytes)> {
    var (b, t) :- ConsumeBytes(8, s);
    PowersOf256();
    Some((Number(b, 8), t))
  }

  function ConsumeWords(n: nat, s: Bytes): Option<(seq<U64>, Bytes)> {
    if n == 0 then Some(([], s))
    else
      var (w, t) :- ConsumeU64(s);
      var (ws, u) :- ConsumeWords(n - 1, t);
      Some(([w] + ws, u))
  }

  function ConsumeGids(n: nat, s: Bytes): Option<(seq<U32>, Bytes)> {
    if n == 0 then Some(([], s))
    else
      var (g, t) :- ConsumeU32(s);
      var (gs, u) :- ConsumeGids(n - 1, t);
      Some(([g] + gs, u))
  }

  // One mount, replayed through the API.
  function ConsumeMount(j: Jail, s: Bytes): Option<(Jail, Bytes)> {
    var (src, s1) :- ConsumeStr(s);
    var (dest, s2) :- ConsumeStr(s1);
    var (fstype, s3) :- ConsumeStr(s2);
    var (hasData, s4) :- ConsumeU32(s3);
    var (data, s5) :- ConsumeMaybe(hasData != 0, s4);
    var (flags, s6) :- ConsumeU64(s5);
    var j1 :- AddMount(j, src, dest, fstype, flags, data);
    Some((j1, s6))
  }

  function ConsumeMounts(n: nat, j: Jail, s: Bytes): Option<(Jail, Bytes)> {
    if n == 0 then Some((j, s))
    else
      var (j1, t) :- ConsumeMount(j, s);
      ConsumeMounts(n - 1, j1, t)
  }

  function ConsumeCgroups(n: nat, s: Bytes): Option<(seq<CStr>, Bytes)> {
    if n == 0 then Some(([], s))
    else
      var (c, t) :- ConsumeStr(s);
      var (cs, u) :- ConsumeCgroups(n - 1, t);
      Some(([c] + cs, u))
  }

  function ConsumeRule(s: Bytes): Option<(FsRule, Bytes)> {
    var (path, t) :- ConsumeStr(s);
    var (flags, u) :- ConsumeU64(t);
    if flags == 0 then None else Some((FsRule(path, flags), u))
  }

  function ConsumeRules(n: nat, s: Bytes): Option<(seq<FsRule>, Bytes)> {
    if n == 0 then Some(([], s))
    else
      var (r, t) :- ConsumeRule(s);
      var (rs, u) :- ConsumeRules(n - 1, t);
      Some(([r] + rs, u))
  }

  function ConsumeGidList(present: bool, n: nat, s: Bytes): Option<(Option<seq<U32>>, Bytes)> {
    if !present then Some((None, s))
    else if n > NGROUPS_MAX then None
    else
      var (g, t) :- ConsumeGids(n, s);
      Some((Some(g), t))
  }

  function ConsumeFilter(present: bool, n: nat, s: Bytes): Option<(Option<Bytes>, Bytes)> {
    if !present || n == 0 then Some((None, s))
    else if n > USHRT_MAX then None
    else
      var (f, t) :- ConsumeBytes(8 * n, s);
      Some((Some(f), t))
  }

  // The strings, groups and filter that follow the structure.
  function ConsumeScalars(w: seq<U64>, rest: Bytes, s: Bytes): Option<(Jail, Bytes)>
    requires |w| == WORDS
  {
    var (user, s1) :- ConsumeMaybe(w[0] != 0, s);
    var (gids, s2) :- ConsumeGidList(w[1] != 0, w[2], s1);
    var (chrootdir, s3) :- ConsumeMaybe(w[3] != 0, s2);
    var (hostname, s4) :- ConsumeMaybe(w[4] != 0, s3);
    var (altTable, s5) :- ConsumeMaybe(w[5] != 0, s4);
    var (filter, s6) :- ConsumeFilter(w[6] != 0, w[7], s5);
    Some((Jail(user, gids, chrootdir, hostname, altTable, w[6] != 0, w[7], filter, w[8] != 0, w[9] != 0,
               [], [], [], 0, None, CLEARED, rest), s6))
  }

  // The lists and what follows them.
  function ConsumeLists(w: seq<U64>, j: Jail, s: Bytes): Option<(Jail, Bytes)>
    requires |w| == WORDS
  {
    var (j1, s1) :- ConsumeMounts(w[10], j, s);
    if w[11] > MAX_CGROUPS then None
    else
      var (cgroups, s2) :- ConsumeCgroups(w[11], s1);
      var (rules, s3) :- ConsumeRules(w[12], s2);
      var (fd, s4) :- ConsumeU32(s3);
      if fd == 0 then None
      else
        var (path, s5) :- ConsumeMaybe(w[13] != 0, s4);
        Some((j1.(cgroups := cgroups, fsRules := rules, fsRulesFd := fd, policyPath := path), s5))
  }

  /** minijail_unmarshal, and the bytes it leaves. */
  function Deserialize(s: Bytes, restSize: nat): Option<(Jail, Bytes)> {
    var (w, s1) :- ConsumeWords(WORDS, s);
    if |w| != WORDS then None
    else
      var (rest, s2) :- ConsumeBytes(restSize, s1);
      var (j, s3) :- ConsumeScalars(w, rest, s2);
      ConsumeLists(w, j, s3)
  }

  // ----- every piece reads back what was written, whatever follows it -----

  lemma BytesBack(b: Bytes, t: Bytes)
    ensures ConsumeBytes(|b|, b + t) == Some((b, t))
  {
  }

  lemma {:induction false} StrLenBack(s: CStr, t: Bytes)
    ensures StrLen(s + [0] + t) == |s|
  {
    var x := s + [0] + t;
    if s == [] {
      assert x[0] == 0;
    } else {
      assert x[0] == s[0] && x[1..] == s[1..] + [0] + t;
      StrLenBack(s[1..], t);
    }
  }

  lemma StrBack(s: CStr, t: Bytes)
    ensures ConsumeStr(CStrBytes(s) + t) == Some((s, t))
  {
    StrLenBack(s, t);
    assert (s + [0] + t)[..|s|] == s && (s + [0] + t)[|s| + 1..] == t;
  }

  lemma MaybeBack(x: Option<CStr>, t: Bytes)
    ensures ConsumeMaybe(x.Some?, MaybeStr(x) + t) == Some((x, t))
  {
    match x
    case None => assert [] + t == t;
    case Some(s) => StrBack(s, t);
  }

  lemma U32Back(v: U32, t: Bytes)
    ensures ConsumeU32(ToLE(v, 4) + t) == Some((v, t))
  {
    PowersOf256();
    LERoundTrip(v, 4);
    BytesBack(ToLE(v, 4), t);
  }

  lemma U64Back(v: U64, t: Bytes)
    ensures ConsumeU64(ToLE(v, 8) + t) == Some((v, t))
  {
    PowersOf256();
    LERoundTrip(v, 8);
    BytesBack(ToLE(v, 8), t);
  }

  lemma {:induction false} WordsBack(ws: seq<U64>, t: Bytes)
    ensures ConsumeWords(|ws|, WordBytes(ws) + t) == Some((ws, t))
  {
    if ws == [] {
      assert [] + t == t;
    } else {
      Assoc(ToLE(ws[0], 8), WordBytes(ws[1..]), t);
      U64Back(ws[0], WordBytes(ws[1..]) + t);
      WordsBack(ws[1..], t);
      assert ws == [ws[0]] + ws[1..];
    }
  }

  lemma {:induction false} GidsBack(g: seq<U32>, t: Bytes)
    ensures ConsumeGids(|g|, GidBytes(g) + t) == Some((g, t))
  {
    if g == [] {
      assert [] + t == t;
    } else {
      Assoc(ToLE(g[0], 4), GidBytes(g[1..]), t);
      U32Back(g[0], GidBytes(g[1..]) + t);
      GidsBack(g[1..], t);
      assert g == [g[0]] + g[1..];
    }
  }

  lemma MountParts(m: Mount, t: Bytes)
    ensures MountBytes(m) + t ==
            CStrBytes(m.src) + (CStrBytes(m.dest) + (CStrBytes(m.fstype)
              + (ToLE(if m.data.Some? then 1 else 0, 4) + (MaybeStr(m.data) + (ToLE(m.flags, 8) + t)))))
  {
    hide CStrBytes, MaybeStr, ToLE;
    var a, b, c, d, e, f := CStrBytes(m.src), CStrBytes(m.dest), CStrBytes(m.fstype),
                            ToLE(if m.data.Some? then 1 else 0, 4), MaybeStr(m.data), ToLE(m.flags, 8);
    Assoc(a, b + (c + (d + (e + f))), t);
    Assoc(b, c + (d + (e + f)), t);
    Assoc(c, d + (e + f), t);
    Assoc(d, e + f, t);
    Assoc(e, f, t);
  }

  /** Re-adding a stored mount is the identity on its contents. */
  lemma MountBack(m: Mount, j: Jail, t: Bytes)
    requires NormalMount(m)
    ensures ConsumeMount(j, MountBytes(m) + t) ==
            Some((j.(mounts := j.mounts + [m], vfs := j.vfs || !j.enterVfs), t))
  {
    hide CStrBytes, MaybeStr, ToLE, ConsumeStr, ConsumeU32, ConsumeU64, ConsumeMaybe, MountBytes;
    MountParts(m, t);
    var t5 := ToLE(m.flags, 8) + t;
    var t4 := MaybeStr(m.data) + t5;
    var has: U32 := if m.data.Some? then 1 else 0;
    var t3 := ToLE(has, 4) + t4;
    var t2 := CStrBytes(m.fstype) + t3;
    var t1 := CStrBytes(m.dest) + t2;
    StrBack(m.src, t1);
    StrBack(m.dest, t2);
    StrBack(m.fstype, t3);
    U32Back(has, t4);
    MaybeBack(m.data, t5);
    U64Back(m.flags, t);
  }

  // A jail to which these mounts have been added.
  function Mounted(j: Jail, ms: seq<Mount>): Jail {
    j.(mounts := j.mounts + ms, vfs := j.vfs || (ms != [] && !j.enterVfs))
  }

  lemma {:induction false} MountsBack(ms: seq<Mount>, j: Jail, t: Bytes)
    requires forall i :: 0 <= i < |ms| ==> NormalMount(ms[i])
    ensures ConsumeMounts(|ms|, j, MountsBytes(ms) + t) == Some((Mounted(j, ms), t))
    decreases |ms|
  {
    hide MountBytes, ConsumeMount, NormalMount;
    if ms == [] {
      assert [] + t == t && j.mounts + [] == j.mounts;
    } else {
      var m, rest := ms[0], ms[1..];
      Assoc(MountBytes(m), MountsBytes(rest), t);
      MountBack(m, j, MountsBytes(rest) + t);
      var j1 := j.(mounts := j.mounts + [m], vfs := j.vfs || !j.enterVfs);
      MountsBack(rest, j1, t);
      assert j.mounts + [m] + rest == j.mounts + ms;
    }
  }

  lemma {:induction false} CgroupsBack(cs: seq<CStr>, t: Bytes)
    ensures ConsumeCgroups(|cs|, CgroupsBytes(cs) + t) == Some((cs, t))
  {
    hide CStrBytes, ConsumeStr;
    if cs == [] {
      assert [] + t == t;
    } else {
      Assoc(CStrBytes(cs[0]), CgroupsBytes(cs[1..]), t);
      StrBack(cs[0], CgroupsBytes(cs[1..]) + t);
      CgroupsBack(cs[1..], t);
      assert cs == [cs[0]] + cs[1..];
    }
  }

  lemma RuleBack(r: FsRule, t: Bytes)
    ensures ConsumeRule(RuleBytes(r) + t) == if r.flags == 0 then None else Some((r, t))
  {
    hide CStrBytes, ConsumeStr, ConsumeU64, ToLE;
    Assoc(CStrBytes(r.path), ToLE(r.flags, 8), t);
    StrBack(r.path, ToLE(r.flags, 8) + t);
    U64Back(r.flags, t);
  }

  lemma {:induction false} RulesBack(rs: seq<FsRule>, t: Bytes)
    ensures ConsumeRules(|rs|, RulesBytes(rs) + t) == if RulesReadable(rs) then Some((rs, t)) else None
    decreases |rs|
  {
    hide RuleBytes, ConsumeRule;
    if rs == [] {
      assert [] + t == t;
    } else {
      Assoc(RuleBytes(rs[0]), RulesBytes(rs[1..]), t);
      RuleBack(rs[0], RulesBytes(rs[1..]) + t);
      RulesBack(rs[1..], t);
      assert rs == [rs[0]] + rs[1..];
      assert RulesReadable(rs) <==> rs[0].flags != 0 && RulesReadable(rs[1..]);
    }
  }

  lemma GidListBack(g: Option<seq<U32>>, n: nat, t: Bytes)
    requires g.Some? ==> n == |g.value| <= NGROUPS_MAX
    ensures ConsumeGidList(g.Some?, n, (if g.Some? then GidBytes(g.value) else []) + t) == Some((g, t))
  {
    match g
    case None => assert [] + t == t;
    case Some(x) => GidsBack(x, t);
  }

  lemma FilterBack(j: Jail, t: Bytes)
    requires j.filter.Some? <==> j.filterLen > 0
    requires j.filter.Some? ==> |j.filter.value| == 8 * j.filterLen && j.filterLen <= USHRT_MAX
    ensures ConsumeFilter(j.useFilter, j.filterLen, FilterBytes(j) + t) ==
            Some((if j.useFilter then j.filter else None, t))
  {
    if j.useFilter && j.filter.Some? {
      BytesBack(j.filter.value, t);
    } else {
      assert [] + t == t;
    }
  }

  lemma ScalarParts(j: Jail, t: Bytes)
    ensures ScalarBytes(j) + t ==
            MaybeStr(j.user) + ((if j.gids.Some? then GidBytes(j.gids.value) else [])
              + (MaybeStr(j.chrootdir) + (MaybeStr(j.hostname) + (MaybeStr(j.altTable) + (FilterBytes(j) + t)))))
  {
    hide MaybeStr, GidBytes, FilterBytes;
    var a, b := MaybeStr(j.user), if j.gids.Some? then GidBytes(j.gids.value) else [];
    var c, d, e, f := MaybeStr(j.chrootdir), MaybeStr(j.hostname), MaybeStr(j.altTable), FilterBytes(j);
    Assoc(a, b + (c + (d + (e + f))), t);
    Assoc(b, c + (d + (e + f)), t);
    Assoc(c, d + (e + f), t);
    Assoc(d, e + f, t);
    Assoc(e, f, t);
  }

  /** What a round trip gives back: everything but what is not sent, and the filter only under its
      flag. */
  function Restored(j: Jail): Jail { j.(filter := if j.useFilter then j.filter else None, unsent := CLEARED) }

  // What reading the scalars restores.
  function ScalarsOf(j: Jail): Jail {
    Restored(j).(
       mounts := [], cgroups := [], fsRules := [], fsRulesFd := 0, policyPath := None)
  }

  lemma ScalarsBack(j: Jail, a: Addresses, t: Bytes)
    requires Stored(j)
    ensures ConsumeScalars(Words(j, a), j.rest, ScalarBytes(j) + t) == Some((ScalarsOf(j), t))
  {
    hide MaybeStr, GidBytes, FilterBytes, ConsumeMaybe, ConsumeGidList, ConsumeFilter, ScalarBytes, NormalMount;
    ScalarParts(j, t);
    var w := Words(j, a);
    var s5 := FilterBytes(j) + t;
    var s4 := MaybeStr(j.altTable) + s5;
    var s3 := MaybeStr(j.hostname) + s4;
    var s2 := MaybeStr(j.chrootdir) + s3;
    var s1 := (if j.gids.Some? then GidBytes(j.gids.value) else []) + s2;
    MaybeBack(j.user, s1);
    GidListBack(j.gids, w[2], s2);
    MaybeBack(j.chrootdir, s3);
    MaybeBack(j.hostname, s4);
    MaybeBack(j.altTable, s5);
    FilterBack(j, t);
  }

  lemma ListsBack(j: Jail, a: Addresses)
    requires Stored(j)
    ensures ConsumeLists(Words(j, a), ScalarsOf(j), ListBytes(j)) ==
            if Readable(j) then Some((Restored(j), [])) else None
  {
    hide MaybeStr, ConsumeMaybe, ConsumeMounts, ConsumeCgroups, ConsumeRules, ConsumeU32, NormalMount, MountsBytes,
         CgroupsBytes, RulesBytes, ToLE;
    var w, j0 := Words(j, a), ScalarsOf(j);
    var s4 := MaybeStr(j.policyPath) + [];
    var s3 := ToLE(j.fsRulesFd, 4) + s4;
    assert s4 == MaybeStr(j.policyPath);
    var s2 := RulesBytes(j.fsRules) + s3;
    var s1 := CgroupsBytes(j.cgroups) + s2;
    MountsBack(j.mounts, j0, s1);
    assert Mounted(j0, j.mounts) == j0.(mounts := j.mounts) by { assert [] + j.mounts == j.mounts; }
    CgroupsBack(j.cgroups, s2);
    RulesBack(j.fsRules, s3);
    U32Back(j.fsRulesFd, s4);
    MaybeBack(j.policyPath, []);
  }

  /** Unmarshalling a marshalled jail succeeds exactly when no Landlock mask and not the rules
      descriptor is zero; then it consumes every byte and restores all that was sent. The preload
      path, the file name, the pid file path, the id maps, the remounts and the hooks are not sent,
      and the filter only under its flag. */
  lemma RoundTrip(j: Jail, a: Addresses)
    requires Stored(j)
    ensures Deserialize(Serialize(j, a), |j.rest|) ==
            if Readable(j) then Some((Restored(j), [])) else None
  {
    assert Countable(j);
    hide Words, WordBytes, ScalarBytes, ListBytes, ConsumeWords, ConsumeScalars, ConsumeLists, Stored, Readable,
         ScalarsOf;
    var tail := ScalarBytes(j) + ListBytes(j);
    WordsBack(Words(j, a), j.rest + tail);
    BytesBack(j.rest, tail);
    ScalarsBack(j, a, ListBytes(j));
    ListsBack(j, a);
    WordCount(j, a);
  }

  lemma WordCount(j: Jail, a: Addresses)
    requires Countable(j)
    ensures |Words(j, a)| == WORDS
  {
  }

  // ----- the reader as it runs -----

  // A method's result and the bytes left, as the functions above return them.
  function Left<T>(r: Option<T>, t: Bytes): Option<(T, Bytes)> {
    match r case None => None case Some(x) => Some((x, t))
  }

  /** The pointer and length that minijail_unmarshal advances. */
  class Reader {
    var buf: Bytes

    constructor (buf: Bytes)
      ensures this.buf == buf
    {
      this.buf := buf;
    }

    method ReadStr() returns (r: Option<CStr>)
      modifies this
      ensures Left(r, buf) == ConsumeStr(old(buf))
    {
      var n := 0;
      while n < |buf| && buf[n] != 0
        invariant 0 <= n <= |buf| && 0 !in buf[..n]
      {
        n := n + 1;
      }
      StrLenIs(buf, n);
      if n == |buf| {
        return None;
      }
      r := Some(buf[..n]);
      buf := buf[n + 1..];
    }

    method ReadMaybe(present: bool) returns (r: Option<Option<CStr>>)
      modifies this
      ensures Left(r, buf) == ConsumeMaybe(present, old(buf))
    {
      if !present {
        return Some(None);
      }
      var s := ReadStr();
      r := if s.None? then None else Some(s);
    }

    // consumebytes
    method ReadBytes(n: nat) returns (r: Option<Bytes>)
      modifies this
      ensures Left(r, buf) == ConsumeBytes(n, old(buf))
    {
      if n > |buf| {
        return None;
      }
      r := Some(buf[..n]);
      buf := buf[n..];
    }

    method ReadU32() returns (r: Option<U32>)
      modifies this
      ensures Left(r, buf) == ConsumeU32(old(buf))
    {
      var b := ReadBytes(4);
      if b.None? { return None; }
      PowersOf256();
      var v := Decode(b.value);
      r := Some(v);
    }

    method ReadU64() returns (r: Option<U64>)
      modifies this
      ensures Left(r, buf) == ConsumeU64(old(buf))
    {
      var b := ReadBytes(8);
      if b.None? { return None; }
      PowersOf256();
      var v := Decode(b.value);
      r := Some(v);
    }

    // The words of the structure.
    method ReadWords(n: nat) returns (r: Option<seq<U64>>)
      modifies this
      ensures Left(r, buf) == ConsumeWords(n, old(buf))
      ensures r.Some? ==> |r.value| == n
    {
      hide ConsumeU64;
      var i, ws := 0, [];
      BehindNothing(ConsumeWords(n, buf));
      while i < n
        invariant 0 <= i <= n && |ws| == i
        invariant ConsumeWords(n, old(buf)) == Behind(ws, ConsumeWords(n - i, buf))
      {
        var w := ReadU64();
        if w.None? { return None; }
        BehindOne(ws, w.value, ConsumeWords(n - i - 1, buf));
        ws := ws + [w.value];
        i := i + 1;
      }
      r := Some(ws);
      assert ws + [] == ws;
    }

    method ReadGids(n: nat) returns (r: Option<seq<U32>>)
      modifies this
      ensures Left(r, buf) == ConsumeGids(n, old(buf))
    {
      hide ConsumeU32;
      var i, gs := 0, [];
      BehindNothing(ConsumeGids(n, buf));
      while i < n
        invariant 0 <= i <= n
        invariant ConsumeGids(n, old(buf)) == Behind(gs, ConsumeGids(n - i, buf))
      {
        var g := ReadU32();
        if g.None? { return None; }
        BehindOne(gs, g.value, ConsumeGids(n - i - 1, buf));
        gs := gs + [g.value];
        i := i + 1;
      }
      r := Some(gs);
      assert gs + [] == gs;
    }

    method ReadGidList(present: bool, n: nat) returns (r: Option<Option<seq<U32>>>)
      modifies this
      ensures Left(r, buf) == ConsumeGidList(present, n, old(buf))
    {
      hide ConsumeGids;
      if !present { return Some(None); }
      if n > NGROUPS_MAX { return None; }
      var g := ReadGids(n);
      r := if g.None? then None else Some(g);
    }

    method ReadFilter(present: bool, n: nat) returns (r: Option<Option<Bytes>>)
      modifies this
      ensures Left(r, buf) == ConsumeFilter(present, n, old(buf))
    {
      hide ConsumeBytes;
      if !present || n == 0 { return Some(None); }
      if n > USHRT_MAX { return None; }
      var f := ReadBytes(8 * n);
      r := if f.None? then None else Some(f);
    }

    // The part of minijail_unmarshal up to the filter. A failed read leaves nothing to be used.
    method ReadScalars(w: seq<U64>, rest: Bytes) returns (r: Option<Jail>)
      requires |w| == WORDS
      modifies this
      ensures Left(r, buf) == ConsumeScalars(w, rest, old(buf))
    {
      hide ConsumeMaybe, ConsumeGidList, ConsumeFilter;
      var user := ReadMaybe(w[0] != 0);
      if user.None? { return None; }
      var gids := ReadGidList(w[1] != 0, w[2]);
      if gids.None? { return None; }
      var chrootdir := ReadMaybe(w[3] != 0);
      if chrootdir.None? { return None; }
      var hostname := ReadMaybe(w[4] != 0);
      if hostname.None? { return None; }
      var altTable := ReadMaybe(w[5] != 0);
      if altTable.None? { return None; }
      var filter := ReadFilter(w[6] != 0, w[7]);
      if filter.None? { return None; }
      r := Some(Jail(user.value, gids.value, chrootdir.value, hostname.value, altTable.value, w[6] != 0, w[7],
                     filter.value, w[8] != 0, w[9] != 0, [], [], [], 0, None, CLEARED, rest));
    }

    method ReadMount(j: Jail) returns (r: Option<Jail>)
      modifies this
      ensures Left(r, buf) == ConsumeMount(j, old(buf))
    {
      hide ConsumeStr, ConsumeU32, ConsumeU64, ConsumeMaybe, AddMount;
      var src := ReadStr();
      if src.None? { return None; }
      var dest := ReadStr();
      if dest.None? { return None; }
      var fstype := ReadStr();
      if fstype.None? { return None; }
      var hasData := ReadU32();
      if hasData.None? { return None; }
      var data := ReadMaybe(hasData.value != 0);
      if data.None? { return None; }
      var flags := ReadU64();
      if flags.None? { return None; }
      r := AddMount(j, src.value, dest.value, fstype.value, flags.value, data.value);
    }

    method ReadMounts(n: nat, j: Jail) returns (r: Option<Jail>)
      modifies this
      ensures Left(r, buf) == ConsumeMounts(n, j, old(buf))
    {
      hide ConsumeMount;
      var i, cur := 0, j;
      while i < n
        invariant 0 <= i <= n
        invariant ConsumeMounts(n, j, old(buf)) == ConsumeMounts(n - i, cur, buf)
      {
        var next := ReadMount(cur);
        if next.None? {
          return None;
        }
        cur := next.value;
        i := i + 1;
      }
      r := Some(cur);
    }

    method ReadCgroups(n: nat) returns (r: Option<seq<CStr>>)
      modifies this
      ensures Left(r, buf) == ConsumeCgroups(n, old(buf))
    {
      hide ConsumeStr;
      var i, cs := 0, [];
      BehindNothing(ConsumeCgroups(n, buf));
      while i < n
        invariant 0 <= i <= n
        invariant ConsumeCgroups(n, old(buf)) == Behind(cs, ConsumeCgroups(n - i, buf))
      {
        ghost var rest := ConsumeCgroups(n - i, buf);
        var c := ReadStr();
        if c.None? {
          return None;
        }
        BehindOne(cs, c.value, ConsumeCgroups(n - i - 1, buf));
        cs := cs + [c.value];
        i := i + 1;
      }
      r := Some(cs);
      assert cs + [] == cs;
    }

    method ReadRule() returns (r: Option<FsRule>)
      modifies this
      ensures Left(r, buf) == ConsumeRule(old(buf))
    {
      hide ConsumeStr, ConsumeU64;
      var path := ReadStr();
      if path.None? { return None; }
      var flags := ReadU64();
      if flags.None? || flags.value == 0 { return None; }
      r := Some(FsRule(path.value, flags.value));
    }

    method ReadRules(n: nat) returns (r: Option<seq<FsRule>>)
      modifies this
      ensures Left(r, buf) == ConsumeRules(n, old(buf))
    {
      hide ConsumeRule;
      var i, rs := 0, [];
      BehindNothing(ConsumeRules(n, buf));
      while i < n
        invariant 0 <= i <= n
        invariant ConsumeRules(n, old(buf)) == Behind(rs, ConsumeRules(n - i, buf))
      {
        var x := ReadRule();
        if x.None? {
          return None;
        }
        BehindOne(rs, x.value, ConsumeRules(n - i - 1, buf));
        rs := rs + [x.value];
        i := i + 1;
      }
      r := Some(rs);
      assert rs + [] == rs;
    }

    // The part of minijail_unmarshal behind the filter.
    method ReadLists(w: seq<U64>, j: Jail) returns (r: Option<Jail>)
      requires |w| == WORDS
      modifies this
      ensures Left(r, buf) == ConsumeLists(w, j, old(buf))
    {
      hide ConsumeMounts, ConsumeCgroups, ConsumeRules, ConsumeU32, ConsumeMaybe;
      var j1 := ReadMounts(w[10], j);
      if j1.None? || w[11] > MAX_CGROUPS { return None; }
      var cgroups := ReadCgroups(w[11]);
      if cgroups.None? { return None; }
      var rules := ReadRules(w[12]);
      if rules.None? { return None; }
      var fd := ReadU32();
      if fd.None? || fd.value == 0 { return None; }
      var path := ReadMaybe(w[13] != 0);
      if path.None? { return None; }
      r := Some(j1.value.(cgroups := cgroups.value, fsRules := rules.value, fsRulesFd := fd.value,
                          policyPath := path.value));
    }
  }

  // The number in little-endian bytes, from the most significant one down.
  method Decode(b: Bytes) returns (v: nat)
    ensures v == FromLE(b) < Pow256(|b|)
  {
    v := 0;
    var i := |b|;
    assert b[i..] == [];
    while i > 0
      invariant 0 <= i <= |b| && v == FromLE(b[i..])
    {
      i := i - 1;
      assert b[i..][1..] == b[i + 1..];
      v := b[i] + 0x100 * v;
    }
    assert b[0..] == b;
    FromLEBound(b);
  }

  // Elements read so far, then the rest of the list.
  function Behind<T>(done: seq<T>, r: Option<(seq<T>, Bytes)>): Option<(seq<T>, Bytes)> {
    match r case None => None case Some((x, t)) => Some((done + x, t))
  }

  lemma BehindNothing<T>(r: Option<(seq<T>, Bytes)>)
    ensures Behind([], r) == r
  {
    if r.Some? { assert [] + r.value.0 == r.value.0; }
  }

  lemma BehindOne<T>(done: seq<T>, x: T, r: Option<(seq<T>, Bytes)>)
    ensures Behind(done, Behind([x], r)) == Behind(done + [x], r)
  {
    if r.Some? { assert done + ([x] + r.value.0) == done + [x] + r.value.0; }
  }

  lemma {:induction false} StrLenIs(s: Bytes, n: nat)
    requires n <= |s| && 0 !in s[..n] && (n < |s| ==> s[n] == 0)
    ensures StrLen(s) == n
  {
    if s != [] && s[0] != 0 {
      assert s[..n][1..] == s[1..][..n - 1];
      StrLenIs(s[1..], n - 1);
    }
  }

  /** minijail_unmarshal: reading a jail's bytes gives back what was sent of the jail. */
  method Unmarshal(serialized: Bytes, restSize: nat) returns (r: Option<Jail>, left: Bytes)
    ensures Left(r, left) == Deserialize(serialized, restSize)
    ensures forall j: Jail, a: Addresses :: Stored(j) && restSize == |j.rest| && serialized == Serialize(j, a) ==>
              Left(r, left) == if Readable(j) then Some((Restored(j), [])) else None
  {
    r, left := UnmarshalSteps(serialized, restSize);
    hide Deserialize, Serialize, NormalMount, Left;
    forall j: Jail, a: Addresses | Stored(j) && restSize == |j.rest| && serialized == Serialize(j, a)
      ensures Left(r, left) == if Readable(j) then Some((Restored(j), [])) else None
    {
      RoundTrip(j, a);
    }
  }

  method UnmarshalSteps(serialized: Bytes, restSize: nat) returns (r: Option<Jail>, left: Bytes)
    ensures Left(r, left) == Deserialize(serialized, restSize)
  {
    hide ConsumeWords, ConsumeBytes, ConsumeScalars, ConsumeLists;
    left := [];
    var reader := new Reader(serialized);
    var words := reader.ReadWords(WORDS);
    if words.None? { return None, left; }
    var rest := reader.ReadBytes(restSize);
    if rest.None? { return None, left; }
    var scalars := reader.ReadScalars(words.value, rest.value);
    if scalars.None? { return None, left; }
    r := reader.ReadLists(words.value, scalars.value);
    left := reader.buf;
  }
}
