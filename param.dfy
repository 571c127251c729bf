/**
 The request carrier handed to the withdraw processor: the owner's address and
 a timestamp, with getters and setters that update the fields in place.
 */
module WithdrawParam {
  import opened JavaLong

  type Address = seq<bv8>

  class WithdrawExpireUnfreezeParam {
    /** The account that asks to withdraw its expired unfreeze entries. */
    var ownerAddress: Address
    /** A timestamp carried for the caller; the processor never reads it. */
    var nowInMs: Long

    /** Java's implicit constructor: no address yet (modelled as the empty byte array) and 0. */
    constructor ()
      ensures ownerAddress == [] && nowInMs == 0
    {
      ownerAddress := [];
      nowInMs := 0;
    }

    function GetOwnerAddress(): Address
      reads this`ownerAddress
    {
      ownerAddress
    }

    method SetOwnerAddress(address: Address)
      modifies this`ownerAddress
      ensures GetOwnerAddress() == address
      ensures GetNowInMs() == old(GetNowInMs())
    {
      ownerAddress := address;
    }

    function GetNowInMs(): Long
      reads this`nowInMs
    {
      nowInMs
    }

    method SetNowInMs(now: Long)
      modifies this`nowInMs
      ensures GetNowInMs() == now
      ensures GetOwnerAddress() == old(GetOwnerAddress())
    {
      nowInMs := now;
    }
  }
}
