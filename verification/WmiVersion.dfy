/** The negotiation of the WMI interface version (core/wmi/wmi_tlv_helper.c).  The
  * host may step down one minor version at a time, as far as a whitelist lets it. */
module WmiVersion {
  import opened Bytes

  /** wmi_abi_version: major and minor packed in one word, the build, and four words
    * of name space. */
  datatype AbiVersion = AbiVersion(version0: word, version1: word, ns0: word, ns1: word, ns2: word, ns3: word)

  datatype WhitelistEntry = WhitelistEntry(major: word, minor: word, ns0: word, ns1: word, ns2: word, ns3: word)

  function Major(version0: word): nat {
    version0 / 0x100_0000
  }

  function Minor(version0: word): nat {
    version0 % 0x100_0000
  }

  /** WMI_VER_GET_VERSION_0: parts that are too wide lose their upper bits. */
  function Version0(major: word, minor: word): word {
    major % 0x100 * 0x100_0000 + minor % 0x100_0000
  }

  /** Packing and unpacking are inverse to each other. */
  lemma VersionRoundTrip(major: word, minor: word, version0: word)
    ensures Version0(Major(version0), Minor(version0)) == version0
    ensures Major(Version0(major, minor)) == major && Minor(Version0(major, minor)) == minor <==>
      major < 0x100 && minor < 0x100_0000
  {
    PackedParts(major % 0x100, minor % 0x100_0000);
    Parts(version0);
  }

  lemma PackedParts(hi: nat, lo: nat)
    requires hi < 0x100 && lo < 0x100_0000
    ensures (hi * 0x100_0000 + lo) / 0x100_0000 == hi && (hi * 0x100_0000 + lo) % 0x100_0000 == lo
  {
  }

  predicate SameNamespace(a: AbiVersion, b: AbiVersion) {
    a.ns0 == b.ns0 && a.ns1 == b.ns1 && a.ns2 == b.ns2 && a.ns3 == b.ns3
  }

  /** wmi_versions_are_compatible; the build is ignored. */
  predicate Compatible(a: AbiVersion, b: AbiVersion) {
    SameNamespace(a, b) && a.version0 == b.version0
  }

  // ---------- what a whitelist allows ----------

  predicate Permits(w: WhitelistEntry, mine: AbiVersion, minor: nat) {
    && w.major == Major(mine.version0) && w.minor == minor
    && w.ns0 == mine.ns0 && w.ns1 == mine.ns1 && w.ns2 == mine.ns2 && w.ns3 == mine.ns3
  }

  /** The step down from `minor` is whitelisted. */
  ghost predicate Listed(whitelist: seq<WhitelistEntry>, mine: AbiVersion, minor: nat) {
    exists i :: 0 <= i < |whitelist| && Permits(whitelist[i], mine, minor)
  }

  /** Every step from my minor version down to `minor` is whitelisted. */
  ghost predicate CanReach(whitelist: seq<WhitelistEntry>, mine: AbiVersion, minor: nat) {
    forall m :: minor < m <= Minor(mine.version0) ==> Listed(whitelist, mine, m)
  }

  /** The lowest version not below the opposite side's that can be reached. */
  ghost predicate Lowest(whitelist: seq<WhitelistEntry>, mine: AbiVersion, opp: AbiVersion, minor: nat) {
    && Minor(opp.version0) <= minor <= Minor(mine.version0)
    && CanReach(whitelist, mine, minor)
    && forall lower :: Minor(opp.version0) <= lower < minor ==> !CanReach(whitelist, mine, lower)
  }

  ghost predicate CanDowngrade(whitelist: seq<WhitelistEntry>, mine: AbiVersion, opp: AbiVersion) {
    && SameNamespace(mine, opp) && Major(mine.version0) == Major(opp.version0)
    && Minor(opp.version0) <= Minor(mine.version0) && CanReach(whitelist, mine, Minor(opp.version0))
  }

  /** Compatible versions differ at most in the build. */
  lemma CompatibleIfSame(a: AbiVersion, b: AbiVersion)
    ensures Compatible(a, b) <==> a == b.(version1 := a.version1)
  {
  }

  /** The entry that permits the step down from `minor`: it names my major version, this
    * minor version and my name space. */
  function OwnEntry(mine: AbiVersion, minor: word): WhitelistEntry {
    WhitelistEntry(Major(mine.version0), minor, mine.ns0, mine.ns1, mine.ns2, mine.ns3)
  }

  /** The host can step down if and only if name spaces and major versions agree, and for
    * each of its minor versions above the opposite side's the whitelist has that entry. */
  lemma {:induction false} DowngradesByOwnEntries(whitelist: seq<WhitelistEntry>, mine: AbiVersion, opp: AbiVersion)
    ensures CanDowngrade(whitelist, mine, opp) <==>
      && mine.ns0 == opp.ns0 && mine.ns1 == opp.ns1 && mine.ns2 == opp.ns2 && mine.ns3 == opp.ns3
      && Major(mine.version0) == Major(opp.version0) && Minor(opp.version0) <= Minor(mine.version0)
      && forall m: word :: Minor(opp.version0) < m <= Minor(mine.version0) ==> OwnEntry(mine, m) in whitelist
  {
    hide Listed, Major, Minor;
    InRange(mine.version0);
    forall m: word | m <= Minor(mine.version0) ensures Listed(whitelist, mine, m) <==> OwnEntry(mine, m) in whitelist {
      ListedIfOwn(whitelist, mine, m);
    }
  }

  lemma ListedIfOwn(whitelist: seq<WhitelistEntry>, mine: AbiVersion, m: word)
    ensures Listed(whitelist, mine, m) <==> OwnEntry(mine, m) in whitelist
  {
    hide Major;
    if OwnEntry(mine, m) in whitelist {
      var i :| 0 <= i < |whitelist| && whitelist[i] == OwnEntry(mine, m);
      assert Permits(whitelist[i], mine, m);
    }
  }

  /** An entry of another name space or major version, or for a step that is not to be
    * taken, wherever it stands, changes neither the answer nor how far down it leads. */
  lemma {:induction false} OtherEntriesDoNotMatter(front: seq<WhitelistEntry>, w: WhitelistEntry, back: seq<WhitelistEntry>,
                                                   mine: AbiVersion, opp: AbiVersion, d: nat)
    requires
      || w.major != Major(mine.version0) || !(Minor(opp.version0) < w.minor <= Minor(mine.version0))
      || w.ns0 != mine.ns0 || w.ns1 != mine.ns1 || w.ns2 != mine.ns2 || w.ns3 != mine.ns3
    ensures CanDowngrade(front + [w] + back, mine, opp) <==> CanDowngrade(front + back, mine, opp)
    ensures Lowest(front + [w] + back, mine, opp, d) <==> Lowest(front + back, mine, opp, d)
  {
    hide Listed, Major, Minor;
    forall m: nat | Minor(opp.version0) < m <= Minor(mine.version0)
      ensures Listed(front + [w] + back, mine, m) <==> Listed(front + back, mine, m)
    {
      SameListed(front, w, back, mine, m);
    }
    forall k: nat | Minor(opp.version0) <= k
      ensures CanReach(front + [w] + back, mine, k) <==> CanReach(front + back, mine, k)
    {
    }
  }

  lemma {:induction false} SameListed(front: seq<WhitelistEntry>, w: WhitelistEntry, back: seq<WhitelistEntry>, mine: AbiVersion, m: nat)
    requires
      || w.major != Major(mine.version0) || w.minor != m
      || w.ns0 != mine.ns0 || w.ns1 != mine.ns1 || w.ns2 != mine.ns2 || w.ns3 != mine.ns3
    ensures Listed(front + [w] + back, mine, m) <==> Listed(front + back, mine, m)
  {
    hide Major;
    var with, without := front + [w] + back, front + back;
    if Listed(with, mine, m) {
      var i :| 0 <= i < |with| && Permits(with[i], mine, m);
      assert i != |front|;
      assert with[i] == without[if i < |front| then i else i - 1];
    }
    if Listed(without, mine, m) {
      var i :| 0 <= i < |without| && Permits(without[i], mine, m);
      assert without[i] == with[if i < |front| then i else i + 1];
    }
  }

  /** A longer whitelist never ends higher, and never turns success into failure. */
  lemma {:induction false} MoreEntriesReachLower(whitelist: seq<WhitelistEntry>, more: seq<WhitelistEntry>,
                                                 mine: AbiVersion, opp: AbiVersion, d: nat, f: nat)
    requires Lowest(whitelist, mine, opp, d) && Lowest(whitelist + more, mine, opp, f)
    ensures f <= d
    ensures CanDowngrade(whitelist, mine, opp) ==> CanDowngrade(whitelist + more, mine, opp)
  {
    forall m | Listed(whitelist, mine, m) ensures Listed(whitelist + more, mine, m) {
      var i :| 0 <= i < |whitelist| && Permits(whitelist[i], mine, m);
      assert (whitelist + more)[i] == whitelist[i];
    }
    assert CanReach(whitelist + more, mine, d);
  }

  // ---------- the loops ----------

  /** The search for an entry that permits one step down (1067-1096). */
  method FindEntry(whitelist: seq<WhitelistEntry>, my_vers: AbiVersion, minor: nat) returns (downgraded: bool)
    ensures downgraded <==> Listed(whitelist, my_vers, minor)
  {
    var i := 0;
    while i < |whitelist|
      invariant 0 <= i <= |whitelist|
      invariant forall j :: 0 <= j < i ==> !Permits(whitelist[j], my_vers, minor)
    {
      var w := whitelist[i];
      i := i + 1;
      if w.major != Major(my_vers.version0) {
        continue;
      }
      if w.ns0 != my_vers.ns0 || w.ns1 != my_vers.ns1 || w.ns2 != my_vers.ns2 || w.ns3 != my_vers.ns3 {
        continue;
      }
      if w.minor == minor {
        assert Permits(whitelist[i - 1], my_vers, minor);
        return true;
      }
    }
    return false;
  }

  /** wmi_versions_can_downgrade */
  method VersionsCanDowngrade(whitelist: seq<WhitelistEntry>, my_vers: AbiVersion, opp_vers: AbiVersion)
    returns (code: int, out_vers: AbiVersion)
    ensures code == 1 <==> CanDowngrade(whitelist, my_vers, opp_vers)
    ensures code == 1 || code == 0
    ensures out_vers == my_vers.(version0 := out_vers.version0) && Major(out_vers.version0) == Major(my_vers.version0)
    ensures if SameNamespace(my_vers, opp_vers) && Major(my_vers.version0) == Major(opp_vers.version0)
               && Minor(opp_vers.version0) <= Minor(my_vers.version0)
            then Lowest(whitelist, my_vers, opp_vers, Minor(out_vers.version0))
            else out_vers == my_vers
  {
    hide Listed, Version0, Major, Minor;
    var my_major_vers := Major(my_vers.version0);
    var my_minor_vers := Minor(my_vers.version0);
    var opp_major_vers := Major(opp_vers.version0);
    var opp_minor_vers := Minor(opp_vers.version0);
    var can_try_to_downgrade;
    if my_vers.ns0 != opp_vers.ns0 || my_vers.ns1 != opp_vers.ns1 || my_vers.ns2 != opp_vers.ns2 || my_vers.ns3 != opp_vers.ns3 {
      can_try_to_downgrade := false;
    } else if my_major_vers != opp_major_vers {
      can_try_to_downgrade := false;
    } else if my_minor_vers < opp_minor_vers {
      can_try_to_downgrade := false;
    } else if my_minor_vers > opp_minor_vers {
      can_try_to_downgrade := true;
    } else {
      return 1, my_vers;
    }
    if !can_try_to_downgrade {
      return 0, my_vers;
    }
    var downgraded_minor_vers := my_minor_vers;
    while downgraded_minor_vers > opp_minor_vers
      invariant opp_minor_vers <= downgraded_minor_vers <= my_minor_vers
      invariant CanReach(whitelist, my_vers, downgraded_minor_vers)
    {
      var downgraded := FindEntry(whitelist, my_vers, downgraded_minor_vers);
      if !downgraded {
        break;
      }
      downgraded_minor_vers := downgraded_minor_vers - 1;
    }
    InRange(my_vers.version0);
    VersionRoundTrip(my_major_vers, downgraded_minor_vers, 0);
    out_vers := my_vers.(version0 := Version0(my_major_vers, downgraded_minor_vers));
    code := if downgraded_minor_vers != opp_minor_vers then 0 else 1;
  }

  lemma InRange(version0: word)
    ensures Major(version0) < 0x100 && Minor(version0) < 0x100_0000
  {
  }

  /** wmi_cmp_and_set_abi_version: it reports success exactly when the version it
    * hands out is compatible with the opposite side's, and that is exactly when the
    * versions are compatible as they are or the whitelist lets the host step down. */
  method CmpAndSetAbiVersion(whitelist: seq<WhitelistEntry>, my_vers: AbiVersion, opp_vers: AbiVersion)
    returns (code: int, out_vers: AbiVersion)
    ensures code == 0 || code == 1
    ensures code == 0 <==> Compatible(out_vers, opp_vers)
    ensures code == 0 <==> Compatible(my_vers, opp_vers) || CanDowngrade(whitelist, my_vers, opp_vers)
    ensures SameNamespace(out_vers, my_vers) && out_vers.version1 == my_vers.version1
  {
    hide CanReach, Major, Minor;
    out_vers := my_vers;
    EqualVersions(my_vers.version0, opp_vers.version0);
    if Compatible(my_vers, opp_vers) {
      return 0, out_vers;
    }
    var can: int;
    can, out_vers := VersionsCanDowngrade(whitelist, my_vers, opp_vers);
    EqualVersions(out_vers.version0, opp_vers.version0);
    code := if can != 0 then 0 else 1;
  }

  lemma Parts(a: word)
    ensures a == Major(a) * 0x100_0000 + Minor(a)
  {
  }

  lemma EqualVersions(a: word, b: word)
    ensures a == b <==> Major(a) == Major(b) && Minor(a) == Minor(b)
  {
    Parts(a);
    Parts(b);
    hide Major, Minor;
    if Major(a) == Major(b) && Minor(a) == Minor(b) {
      assert a == b;
    }
  }
}
