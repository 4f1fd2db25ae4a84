/** The Hybrid-renderer device allow-list (rprUsd/hybridCheck.cpp). */
module HybridCheck {
  import opened Wrappers

  const AmdVendorId: nat := 0x1002

  /** The AMD device ids (Navi 10 to Navi 24 parts) Hybrid accepts. */
  const SupportedDeviceIds: seq<nat> := [
    0x743f, 0x7422, 0x7423, 0x7424, 0x73ef, 0x7421, 0x1002, 0x73bf, 0x73c3, 0x73e0,
    0x73df, 0x73ff, 0x73e1, 0x73e3, 0x731f, 0x7340,
    0x7341, 0x7347, 0x734f, 0x7360, 0x73a5, 0x73a1, 0x7362,
    0x7310, 0x7312]

  /** `IsDeviceSupported`: an AMD device whose id is on the allow-list;
      every listed id is a Navi part (0x7310 to 0x743f) or 0x1002. */
  function IsDeviceSupported(vendorId: nat, deviceId: nat): (ok: bool)
    ensures ok <==> vendorId == 0x1002 && exists i :: 0 <= i < |SupportedDeviceIds| && SupportedDeviceIds[i] == deviceId
    ensures ok ==> deviceId == 0x1002 || 0x7310 <= deviceId <= 0x743f
  {
    vendorId == AmdVendorId && deviceId in SupportedDeviceIds
  }

  /** The properties Vulkan reports for one physical device. */
  datatype DeviceProperties = DeviceProperties(vendorId: nat, deviceId: nat)

  /** `HybridSupportCheck`: one flag per enumerated device. */
  datatype SupportCheck = SupportCheck(flags: seq<bool>)

  /** The constructor. `devices` is None when any Vulkan step (loading the
      library, creating the instance, enumerating devices) fails, which
      leaves the list empty. */
  method NewSupportCheck(devices: Option<seq<DeviceProperties>>) returns (c: SupportCheck)
    ensures devices.None? ==> c.flags == []
    ensures devices.Some? ==> |c.flags| == |devices.value|
    ensures devices.Some? ==> forall i :: 0 <= i < |devices.value| ==>
      (c.flags[i] <==> IsDeviceSupported(devices.value[i].vendorId, devices.value[i].deviceId))
  {
    if devices.None? {
      return SupportCheck([]);
    }
    var flags: seq<bool> := [];
    for i := 0 to |devices.value|
      invariant |flags| == i
      invariant forall k :: 0 <= k < i ==>
        (flags[k] <==> IsDeviceSupported(devices.value[k].vendorId, devices.value[k].deviceId))
    {
      flags := flags + [IsDeviceSupported(devices.value[i].vendorId, devices.value[i].deviceId)];
    }
    c := SupportCheck(flags);
  }

  /** `supported(index)`: false past the end of the list. */
  function Supported(c: SupportCheck, index: nat): (r: bool)
    ensures index >= |c.flags| ==> !r
    ensures index < |c.flags| ==> r == c.flags[index]
  {
    if index < |c.flags| then c.flags[index] else false
  }

  /** Only an AMD device on the list is ever reported supported. */
  lemma {:induction false} SupportedMeansAllowListed(devices: seq<DeviceProperties>, c: SupportCheck, index: nat)
    requires |c.flags| == |devices|
    requires forall i :: 0 <= i < |devices| ==> (c.flags[i] <==> IsDeviceSupported(devices[i].vendorId, devices[i].deviceId))
    ensures Supported(c, index) <==>
      index < |devices| && devices[index].vendorId == AmdVendorId && devices[index].deviceId in SupportedDeviceIds
  {
  }

  /** Examples from the list: a Radeon RX 6800 is supported; the same id
      from another vendor is not. */
  lemma AllowListExamples()
    ensures IsDeviceSupported(0x1002, 0x73bf)
    ensures !IsDeviceSupported(0x10de, 0x73bf)
    ensures !IsDeviceSupported(0x1002, 0x6860)
  {
  }
}
