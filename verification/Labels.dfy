/** Domain separation: no two uses of HKDF in the crate share a salt and an info string. */
module Labels {
  import opened Basics
  import opened Json
  import opened JsonLaws
  import opened Crypto
  import Kem
  import Ratchet
  import GroupRatchet
  import PqDm
  import PqRoute
  import DmState

  /** Every place that derives a key, with what it folds into the labels. */
  datatype Site =
    | KemCombine
    | DmMessage(epoch: U64, index: U64)
    | DmWrap
    | GroupMessage(groupEpoch: U64, groupIndex: U64)
    | GroupWrap
    | PqdmWrap(suite: string, sender: string, recipient: string)
    | PqrouteWrap(header: Json)

  function Salt(x: Site): Bytes {
    match x
    case DmMessage(epoch, _) => Ratchet.MessageSalt(epoch)
    case GroupMessage(epoch, _) => GroupRatchet.GroupSalt(epoch)
    case _ => []
  }

  ghost function PqdmInfo(suite: string, sender: string, recipient: string): Bytes {
    PqDm.INFO_WRAP + [0x7C] + PqDm.DowngradeLockAad(suite, sender, recipient, None)
  }

  ghost function PqrouteInfo(header: Json): Bytes {
    PqRoute.INFO_WRAP + [0x7C] + PqRoute.BuildAad(PqRoute.CanonicalBytes(header))
  }

  ghost function Info(x: Site): Bytes {
    match x
    case KemCombine => Kem.HKDF_INFO
    case DmMessage(_, index) => Ratchet.MessageInfo(index)
    case DmWrap => Ratchet.INFO_DM_WRAP
    case GroupMessage(_, index) => GroupRatchet.GroupInfo(index)
    case GroupWrap => GroupRatchet.EPOCH_WRAP_INFO
    case PqdmWrap(suite, sender, recipient) => PqdmInfo(suite, sender, recipient)
    case PqrouteWrap(header) => PqrouteInfo(header)
  }

  /** The input key of a site: the combiner has two secrets, the others have one. */
  function Ikm(x: Site, secret: Ratchet.Secret, second: Bytes): Bytes {
    if x.KemCombine? then secret + second else secret
  }

  /** The key derivation of each site, by its own function. */
  ghost function KeyAt(p: Primitives, x: Site, secret: Ratchet.Secret, second: Bytes): Bytes {
    match x
    case KemCombine => Kem.Combine(p, secret, second)
    case DmMessage(epoch, index) => Ratchet.DeriveDmMessageKey(p, secret, epoch, index)
    case DmWrap => Ratchet.DmWrapKey(p, secret)
    case GroupMessage(epoch, index) => GroupRatchet.DeriveMessageKey(p, secret, epoch, index)
    case GroupWrap => GroupRatchet.DeriveWrapKey(p, secret)
    case PqdmWrap(suite, sender, recipient) =>
      PqDm.WrapKey(p, secret, PqDm.DowngradeLockAad(suite, sender, recipient, None))
    case PqrouteWrap(header) => PqRoute.DeriveWrapKey(p, secret, PqRoute.BuildAad(PqRoute.CanonicalBytes(header)))
  }

  /** Each is HKDF of the site's own input key, salt and info. */
  lemma SitesUseTheirLabels(p: Primitives, x: Site, secret: Ratchet.Secret, second: Bytes)
    ensures KeyAt(p, x, secret, second) == p.hkdf(Ikm(x, secret, second), Salt(x), Info(x))
  {
  }

  /** The salts as the crate's interop contract lists them. */
  lemma SaltTable(x: Site)
    ensures Salt(x) == match x
      case DmMessage(epoch, _) => Ascii("skchat/dm-epoch/") + U64Be(epoch)
      case GroupMessage(epoch, _) => Ascii("skchat/epoch/") + U64Be(epoch)
      case _ => []
  {
  }

  /** And the infos: of the combiner and the DM ratchet, */
  lemma DmInfoTable(x: Site)
    ensures x.KemCombine? ==> Info(x) == Ascii("sk_pqc/x25519-mlkem768/v1")
    ensures x.DmMessage? ==> Info(x) == Ascii("skchat/dm-ratchet/msg/v1/") + U64Be(x.index)
    ensures x.DmWrap? ==> Info(x) == Ascii("skchat/dm-ratchet/epoch-wrap/v1")
  {
  }

  /** of the group ratchet, */
  lemma GroupInfoTable(x: Site)
    ensures x.GroupMessage? ==> Info(x) == Ascii("skchat/group-ratchet/msg/v1/") + U64Be(x.groupIndex)
    ensures x.GroupWrap? ==> Info(x) == Ascii("skchat/group-ratchet/epoch-wrap/v1")
  {
  }

  /** and of the two one-shot seals, which fold their associated data in. */
  lemma SealInfoTable(x: Site)
    ensures x.PqdmWrap? ==>
      Info(x) == Ascii("skcomms/pqdm/wrap/v1|") + PqDm.DowngradeLockAad(x.suite, x.sender, x.recipient, None)
    ensures x.PqrouteWrap? ==>
      Info(x) == Ascii("skcomms/pqroute/wrap/v1|pqroute1|") + PqRoute.CanonicalBytes(x.header)
  {
    hide PqRoute.CanonicalBytes, PqDm.DowngradeLockAad;
    PqdmLabel();
    PqrouteLabel();
    if x.PqrouteWrap? {
      var (a, b) := (Ascii("skcomms/pqroute/wrap/v1") + [0x7C], Ascii("pqroute1") + [0x7C]);
      var h := PqRoute.CanonicalBytes(x.header);
      assert a + (b + h) == (a + b) + h;
    }
  }

  lemma PqdmLabel()
    ensures Ascii("skcomms/pqdm/wrap/v1") + [0x7C] == Ascii("skcomms/pqdm/wrap/v1|")
  {
  }

  lemma PqrouteLabel()
    ensures Ascii("skcomms/pqroute/wrap/v1") + [0x7C] + (Ascii("pqroute1") + [0x7C])
         == Ascii("skcomms/pqroute/wrap/v1|pqroute1|")
  {
  }

  // -- salts -----------------------------------------------------------------------------------------

  const HMAC_BLOCK := 64

  /** HMAC fills a short key up to its block with zeros. */
  function Padded(salt: Bytes): (b: Bytes)
    requires |salt| <= HMAC_BLOCK
    ensures |b| == HMAC_BLOCK
  {
    salt + Zeros(HMAC_BLOCK - |salt|)
  }

  /** The key that HMAC works with at a site. */
  function PaddedSalt(x: Site): (b: Bytes)
    ensures |b| == HMAC_BLOCK
  {
    Padded(Salt(x))
  }

  lemma EpochOfPadded(prefix: Bytes, e: U64, f: U64)
    requires |prefix| + 8 <= HMAC_BLOCK
    requires Padded(prefix + U64Be(e)) == Padded(prefix + U64Be(f))
    ensures e == f
  {
    var n := |prefix|;
    assert Padded(prefix + U64Be(e))[n..n + 8] == U64Be(e);
    assert Padded(prefix + U64Be(f))[n..n + 8] == U64Be(f);
    U64Injective(e, f);
  }

  /** The eighth byte of a padded salt tells its kind: `d`, `e` or padding. */
  lemma SaltKind(x: Site)
    ensures PaddedSalt(x)[7] == if x.DmMessage? then 0x64 else if x.GroupMessage? then 0x65 else 0
  {
    assert Ratchet.EPOCH_SALT_PREFIX[7] == 0x64;
    assert GroupRatchet.MSG_SALT_PREFIX[7] == 0x65;
  }

  // -- infos -----------------------------------------------------------------------------------------

  lemma IndexOfInfo(prefix: Bytes, i: U64, j: U64)
    requires prefix + U64Be(i) == prefix + U64Be(j)
    ensures i == j
  {
    assert (prefix + U64Be(i))[|prefix|..] == U64Be(i);
    assert (prefix + U64Be(j))[|prefix|..] == U64Be(j);
    U64Injective(i, j);
  }

  /** Where the info strings of the unsalted sites part. */
  lemma InfoKind(x: Site)
    requires Salt(x) == []
    ensures |Info(x)| > 10
    ensures x.KemCombine? <==> Info(x)[2] == 0x5F
    ensures x.DmWrap? || x.GroupWrap? <==> Info(x)[3] == 0x68
    ensures x.DmWrap? ==> Info(x)[7] == 0x64
    ensures x.GroupWrap? ==> Info(x)[7] == 0x67
    ensures x.PqdmWrap? ==> Info(x)[10] == 0x64
    ensures x.PqrouteWrap? ==> Info(x)[10] == 0x72
  {
    hide Print;
    match x
    case KemCombine => assert Kem.HKDF_INFO[2] == 0x5F && Kem.HKDF_INFO[3] == 0x70;
    case DmWrap =>
      var d := Ratchet.INFO_DM_WRAP;
      assert d[2] == 0x63 && d[3] == 0x68 && d[7] == 0x64;
    case GroupWrap =>
      var g := GroupRatchet.EPOCH_WRAP_INFO;
      assert g[2] == 0x63 && g[3] == 0x68 && g[7] == 0x67;
    case PqdmWrap(_, _, _) =>
      var i := PqDm.INFO_WRAP;
      assert i[2] == 0x63 && i[3] == 0x6F && i[10] == 0x64;
    case PqrouteWrap(_) =>
      var i := PqRoute.INFO_WRAP;
      assert i[2] == 0x63 && i[3] == 0x6F && i[10] == 0x72;
    case _ =>
  }

  lemma PqdmInfoInjective(s: string, a: string, b: string, s': string, a': string, b': string)
    requires PqdmInfo(s, a, b) == PqdmInfo(s', a', b')
    ensures s == s' && a == a' && b == b'
  {
    hide PqDm.DowngradeLockAad;
    var n := |PqDm.INFO_WRAP| + 1;
    assert PqdmInfo(s, a, b)[n..] == PqDm.DowngradeLockAad(s, a, b, None);
    assert PqdmInfo(s', a', b')[n..] == PqDm.DowngradeLockAad(s', a', b', None);
    PqDm.AadInjective(s, a, b, None, s', a', b', None);
  }

  lemma PqrouteInfoInjective(v: Json, w: Json)
    requires PqrouteInfo(v) == PqrouteInfo(w)
    ensures v == w
  {
    hide Print, PqRoute.BuildAad;
    var n := |PqRoute.INFO_WRAP| + 1;
    assert PqrouteInfo(v)[n..] == PqRoute.BuildAad(PqRoute.CanonicalBytes(v));
    assert PqrouteInfo(w)[n..] == PqRoute.BuildAad(PqRoute.CanonicalBytes(w));
    PqRoute.AadBytesInjective(PqRoute.CanonicalBytes(v), PqRoute.CanonicalBytes(w));
    PrintInjective(v, w, AsciiOnly);
  }

  // -- separation --------------------------------------------------------------------------------------

  /** The padded salt and the info string determine the site and all it was given. */
  lemma LabelsSeparate(x: Site, y: Site)
    requires PaddedSalt(x) == PaddedSalt(y) && Info(x) == Info(y)
    ensures x == y
  {
    hide Padded, PqdmInfo, PqrouteInfo;
    SaltKind(x);
    SaltKind(y);
    if x.DmMessage? {
      EpochOfPadded(Ratchet.EPOCH_SALT_PREFIX, x.epoch, y.epoch);
      IndexOfInfo(Ratchet.MSG_INFO_PREFIX, x.index, y.index);
    } else if x.GroupMessage? {
      EpochOfPadded(GroupRatchet.MSG_SALT_PREFIX, x.groupEpoch, y.groupEpoch);
      IndexOfInfo(GroupRatchet.GROUP_INFO_PREFIX, x.groupIndex, y.groupIndex);
    } else {
      InfoKind(x);
      InfoKind(y);
      if x.PqdmWrap? {
        PqdmInfoInjective(x.suite, x.sender, x.recipient, y.suite, y.sender, y.recipient);
      } else if x.PqrouteWrap? {
        PqrouteInfoInjective(x.header, y.header);
      }
    }
  }

  /** The associated data of a frame determines its slot. */
  lemma FrameAadInjective(e: U64, i: U64, f: U64, j: U64)
    requires DmState.FrameAad(e, i) == DmState.FrameAad(f, j)
    ensures e == f && i == j
  {
    var n := |DmState.AAD_PREFIX| + 1;
    assert DmState.FrameAad(e, i)[n..n + 8] == U64Be(e) && DmState.FrameAad(e, i)[n + 8..] == U64Be(i);
    assert DmState.FrameAad(f, j)[n..n + 8] == U64Be(f) && DmState.FrameAad(f, j)[n + 8..] == U64Be(j);
    U64Injective(e, f);
    U64Injective(i, j);
  }
}
