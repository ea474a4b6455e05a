/** The key derivations of the group ratchet, as far as their labels go. */
module GroupRatchet {
  import opened Basics
  import opened Crypto
  import opened Ratchet

  const EPOCH_WRAP_INFO: Bytes := Ascii("skchat/group-ratchet/epoch-wrap/v1")
  const MSG_SALT_PREFIX: Bytes := Ascii("skchat/epoch/")
  const GROUP_INFO_PREFIX: Bytes := Ascii("skchat/group-ratchet/msg/v1/")

  function GroupSalt(epoch: U64): Bytes {
    MSG_SALT_PREFIX + U64Be(epoch)
  }

  function GroupInfo(index: U64): Bytes {
    GROUP_INFO_PREFIX + U64Be(index)
  }

  function DeriveMessageKey(p: Primitives, secret: Secret, epoch: U64, index: U64): Bytes {
    p.hkdf(secret, GroupSalt(epoch), GroupInfo(index))
  }

  function DeriveWrapKey(p: Primitives, shared: Bytes): Bytes {
    p.hkdf(shared, [], EPOCH_WRAP_INFO)
  }
}
