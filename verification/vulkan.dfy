/** The Vulkan backend's device context and its physical-device selection
    rule: keep the devices that support the required extensions, give each
    the first queue family that supports compute (dropping devices that have
    none), and take the candidate of best device type, the first enumerated
    one on ties. */
module Vulkan {
  import opened Wrappers

  newtype i32 = x: int | -0x8000_0000 <= x < 0x8000_0000

  /** The device context of the Vulkan backend: which device, of which type,
      and which entry point of the compiled module to run. */
  datatype Vulkan = Vulkan(deviceId: i32, deviceType: i32, entryPoint: string)
  {
    function DeviceId(): i32 { deviceId }
    function DeviceType(): i32 { deviceType }
    function EntryPoint(): string { entryPoint }
  }

  /** `Vulkan::new` stores its three arguments, and the accessors give them
      back unchanged. */
  function New(deviceId: i32, deviceType: i32, entryPoint: string): (v: Vulkan)
    ensures v.DeviceId() == deviceId
    ensures v.DeviceType() == deviceType
    ensures v.EntryPoint() == entryPoint
  {
    Vulkan(deviceId, deviceType, entryPoint)
  }

  /** Physical device kinds. The enumeration is open-ended (non-exhaustive),
      so kinds beyond the five named ones are `Unlisted`. */
  datatype PhysicalDeviceType =
    | DiscreteGpu
    | IntegratedGpu
    | VirtualGpu
    | Cpu
    | Other
    | Unlisted(code: int)

  datatype QueueFlag =
    | Graphics | Compute | Transfer | SparseBinding | Protected
    | VideoDecode | VideoEncode | OpticalFlow

  datatype QueueFamilyProperties = QueueFamilyProperties(queueFlags: set<QueueFlag>, queueCount: nat)

  /** A physical device as enumerated: its properties, the device extensions
      it supports (by name) and its queue families in index order. */
  datatype PhysicalDevice = PhysicalDevice(
    deviceName: string,
    deviceType: PhysicalDeviceType,
    supportedExtensions: set<string>,
    queueFamilies: seq<QueueFamilyProperties>)

  /** The device extensions the backend enables. */
  const RequiredExtensions: set<string> := {"khr_storage_buffer_storage_class"}

  /** A device chosen to run on, with the queue family to create its queue from. */
  datatype Selection = Selection(device: PhysicalDevice, queueFamilyIndex: nat)

  predicate SupportsRequiredExtensions(d: PhysicalDevice)
  {
    RequiredExtensions <= d.supportedExtensions
  }

  /** The queue family's flags intersect `COMPUTE`. */
  predicate IsComputeFamily(q: QueueFamilyProperties)
  {
    Compute in q.queueFlags
  }

  /** The lowest index of a compute-capable queue family, if there is one. */
  function FirstComputeFamily(families: seq<QueueFamilyProperties>): (r: Option<nat>)
    ensures r.Some? ==> r.value < |families| && IsComputeFamily(families[r.value])
    ensures r.Some? ==> forall j :: 0 <= j < r.value ==> !IsComputeFamily(families[j])
    ensures r.None? ==> forall j :: 0 <= j < |families| ==> !IsComputeFamily(families[j])
  {
    if |families| == 0 then None
    else if IsComputeFamily(families[0]) then Some(0)
    else
      match FirstComputeFamily(families[1..])
      case None => None
      case Some(i) => Some(i + 1)
  }

  /** The preference key of a device kind; smaller is better. */
  function Rank(t: PhysicalDeviceType): (r: nat)
    ensures r <= 5
    ensures r == 5 <==> t.Unlisted?
  {
    match t
    case DiscreteGpu => 0
    case IntegratedGpu => 1
    case VirtualGpu => 2
    case Cpu => 3
    case Other => 4
    case Unlisted(_) => 5
  }

  function Key(c: Selection): nat
  {
    Rank(c.device.deviceType)
  }

  /** Step 1: keep the devices supporting the required extensions, in order. */
  function SupportedDevices(ds: seq<PhysicalDevice>): (r: seq<PhysicalDevice>)
    ensures forall k :: 0 <= k < |r| ==> SupportsRequiredExtensions(r[k])
    ensures |r| <= |ds|
  {
    if |ds| == 0 then []
    else (if SupportsRequiredExtensions(ds[0]) then [ds[0]] else []) + SupportedDevices(ds[1..])
  }

  /** Step 2: pair each device with its first compute queue family, dropping
      the devices that have none. */
  function Candidates(ds: seq<PhysicalDevice>): (r: seq<Selection>)
    ensures forall k :: 0 <= k < |r| ==>
      FirstComputeFamily(r[k].device.queueFamilies) == Some(r[k].queueFamilyIndex)
    ensures |r| == 0 <==> forall j :: 0 <= j < |ds| ==> FirstComputeFamily(ds[j].queueFamilies).None?
    ensures |r| <= |ds|
  {
    if |ds| == 0 then []
    else
      var rest := Candidates(ds[1..]);
      match FirstComputeFamily(ds[0].queueFamilies)
      case None => rest
      case Some(i) => [Selection(ds[0], i)] + rest
  }

  /** `min_by_key` as a left fold: a later element replaces the current best
      only when its key is strictly smaller. */
  function FoldMin(best: Selection, rest: seq<Selection>): (r: Selection)
    ensures r == best || r in rest
    ensures Key(r) <= Key(best)
    ensures forall k :: 0 <= k < |rest| ==> Key(r) <= Key(rest[k])
    decreases |rest|
  {
    if |rest| == 0 then best
    else FoldMin(if Key(rest[0]) < Key(best) then rest[0] else best, rest[1..])
  }

  /** The first element of least key, or `None` for no element. */
  function MinByKey(cs: seq<Selection>): (r: Option<Selection>)
    ensures r.None? <==> |cs| == 0
    ensures r.Some? ==> r.value in cs && forall k :: 0 <= k < |cs| ==> Key(r.value) <= Key(cs[k])
  {
    if |cs| == 0 then None else Some(FoldMin(cs[0], cs[1..]))
  }

  /** The whole selection pipeline; `None` where the backend would panic on
      finding no suitable device. */
  function SelectPhysicalDevice(ds: seq<PhysicalDevice>): (r: Option<Selection>)
    ensures r.None? <==> forall j :: 0 <= j < |ds| ==> !Eligible(ds[j])
  {
    SomeCandidateIffEligible(ds);
    MinByKey(Candidates(SupportedDevices(ds)))
  }

  /** A device the pipeline keeps as a candidate. */
  predicate Eligible(d: PhysicalDevice)
  {
    SupportsRequiredExtensions(d) && FirstComputeFamily(d.queueFamilies).Some?
  }

  function SelectionFor(d: PhysicalDevice): Selection
    requires Eligible(d)
  {
    Selection(d, FirstComputeFamily(d.queueFamilies).value)
  }

  /** The filter keeps exactly the supporting devices. */
  lemma {:induction false} SupportedDevicesMembers(ds: seq<PhysicalDevice>)
    ensures forall k :: 0 <= k < |SupportedDevices(ds)| ==> SupportedDevices(ds)[k] in ds
    ensures forall j :: 0 <= j < |ds| && SupportsRequiredExtensions(ds[j]) ==> ds[j] in SupportedDevices(ds)
    decreases |ds|
  {
    if |ds| > 0 {
      SupportedDevicesMembers(ds[1..]);
      assert forall j :: 1 <= j < |ds| ==> ds[j] == ds[1..][j - 1];
    }
  }

  /** The first two steps leave a candidate exactly when some device is
      eligible. */
  lemma SomeCandidateIffEligible(ds: seq<PhysicalDevice>)
    ensures |Candidates(SupportedDevices(ds))| == 0 <==> forall j :: 0 <= j < |ds| ==> !Eligible(ds[j])
  {
    var supported := SupportedDevices(ds);
    SupportedDevicesMembers(ds);
    if j :| 0 <= j < |ds| && Eligible(ds[j]) {
      assert ds[j] in supported;
      var k :| 0 <= k < |supported| && supported[k] == ds[j];
      assert FirstComputeFamily(supported[k].queueFamilies).Some?;
    } else {
      forall k | 0 <= k < |supported|
        ensures FirstComputeFamily(supported[k].queueFamilies).None?
      {
        assert supported[k] in ds;
      }
    }
  }

  /** Index `k` is the first eligible device of minimal rank. */
  ghost predicate IsFirstMinimum(ds: seq<PhysicalDevice>, k: nat)
  {
    && k < |ds|
    && Eligible(ds[k])
    && (forall j :: 0 <= j < |ds| && Eligible(ds[j]) ==> Rank(ds[j].deviceType) >= Rank(ds[k].deviceType))
    && (forall j :: 0 <= j < k && Eligible(ds[j]) ==> Rank(ds[j].deviceType) > Rank(ds[k].deviceType))
  }

  /** The fold keeps the earlier element unless the minimum of the rest is
      strictly better. */
  lemma {:induction false} FoldMinSplit(best: Selection, rest: seq<Selection>)
    requires |rest| > 0
    ensures var m := FoldMin(rest[0], rest[1..]);
            FoldMin(best, rest) == if Key(m) < Key(best) then m else best
    decreases |rest|
  {
    var b' := if Key(rest[0]) < Key(best) then rest[0] else best;
    if |rest| > 1 {
      FoldMinSplit(b', rest[1..]);
      FoldMinSplit(rest[0], rest[1..]);
    }
  }

  /** The pipeline seen one device at a time: the first device competes with
      the selection among the remaining ones and wins ties. */
  lemma SelectCons(ds: seq<PhysicalDevice>)
    requires |ds| > 0
    ensures var s := SelectPhysicalDevice(ds[1..]);
            SelectPhysicalDevice(ds) ==
              if !Eligible(ds[0]) then s
              else if s.Some? && Key(s.value) < Key(SelectionFor(ds[0])) then s
              else Some(SelectionFor(ds[0]))
  {
    var supported := SupportedDevices(ds);
    if SupportsRequiredExtensions(ds[0]) {
      assert supported == [ds[0]] + SupportedDevices(ds[1..]);
      assert supported[1..] == SupportedDevices(ds[1..]);
      var cs := Candidates(supported);
      if Eligible(ds[0]) {
        var rest := Candidates(SupportedDevices(ds[1..]));
        assert cs == [SelectionFor(ds[0])] + rest;
        assert cs[1..] == rest;
        if |rest| > 0 {
          FoldMinSplit(SelectionFor(ds[0]), rest);
        }
      }
    } else {
      assert supported == SupportedDevices(ds[1..]);
    }
  }

  /** A first minimum of the tail stays one, shifted by one, when the head
      is ineligible or strictly worse. */
  lemma ShiftFirstMinimum(ds: seq<PhysicalDevice>, k: nat)
    requires |ds| > 0 && IsFirstMinimum(ds[1..], k)
    requires Eligible(ds[0]) ==> Rank(ds[0].deviceType) > Rank(ds[1..][k].deviceType)
    ensures IsFirstMinimum(ds, k + 1)
  {
  }

  /** An eligible head at least as good as every eligible device of the
      tail is the first minimum. */
  lemma HeadFirstMinimum(ds: seq<PhysicalDevice>)
    requires |ds| > 0 && Eligible(ds[0])
    requires forall j :: 0 <= j < |ds| - 1 && Eligible(ds[1..][j]) ==>
      Rank(ds[1..][j].deviceType) >= Rank(ds[0].deviceType)
    ensures IsFirstMinimum(ds, 0)
  {
    var tail := ds[1..];
    forall j | 0 <= j < |ds| && Eligible(ds[j])
      ensures Rank(ds[j].deviceType) >= Rank(ds[0].deviceType)
    {
      if j > 0 { assert ds[j] == tail[j - 1]; }
    }
  }

  /** Selection fails exactly when no device is eligible; otherwise it returns
      the first eligible device of minimal rank, with its first compute queue
      family. */
  lemma {:induction false} SelectionIsFirstMinimum(ds: seq<PhysicalDevice>) returns (k: nat)
    ensures SelectPhysicalDevice(ds).None? <==> forall j :: 0 <= j < |ds| ==> !Eligible(ds[j])
    ensures SelectPhysicalDevice(ds).Some? ==>
      IsFirstMinimum(ds, k) && SelectPhysicalDevice(ds).value == SelectionFor(ds[k])
    decreases |ds|
  {
    k := 0;
    if |ds| == 0 {
      return;
    }
    SelectCons(ds);
    var tail := ds[1..];
    var k' := SelectionIsFirstMinimum(tail);
    var s := SelectPhysicalDevice(tail);
    if s.None? {
      if Eligible(ds[0]) {
        HeadFirstMinimum(ds);
      }
    } else if !Eligible(ds[0]) || Key(s.value) < Key(SelectionFor(ds[0])) {
      ShiftFirstMinimum(ds, k');
      k := k' + 1;
      assert ds[k] == tail[k'];
    } else {
      HeadFirstMinimum(ds);
    }
  }

  /** The selection rule is deterministic: at most one index is the first
      eligible device of minimal rank. */
  lemma FirstMinimumUnique(ds: seq<PhysicalDevice>, k1: nat, k2: nat)
    requires IsFirstMinimum(ds, k1) && IsFirstMinimum(ds, k2)
    ensures k1 == k2
  {
  }

  /** The rank order is the preference order Discrete > Integrated > Virtual
      > Cpu > Other > any other kind. */
  lemma PreferenceOrder(code: int)
    ensures Rank(DiscreteGpu) < Rank(IntegratedGpu) < Rank(VirtualGpu) < Rank(Cpu) < Rank(Other) < Rank(Unlisted(code))
  {
  }

  /** A device of the given kind that supports everything the backend needs. */
  function Device(t: PhysicalDeviceType): (d: PhysicalDevice)
    ensures Eligible(d)
  {
    var d := PhysicalDevice("device", t, RequiredExtensions, [QueueFamilyProperties({Compute}, 1)]);
    assert IsComputeFamily(d.queueFamilies[0]);
    d
  }

  /** Among [Cpu, Integrated, Discrete, Virtual] the discrete GPU is chosen. */
  lemma SelectionExamples()
    ensures SelectPhysicalDevice([Device(Cpu), Device(IntegratedGpu), Device(DiscreteGpu), Device(VirtualGpu)])
      == Some(Selection(Device(DiscreteGpu), 0))
  {
    var four := [Device(Cpu), Device(IntegratedGpu), Device(DiscreteGpu), Device(VirtualGpu)];
    var k := SelectionIsFirstMinimum(four);
    assert Eligible(four[0]);
    assert Rank(four[k].deviceType) <= Rank(four[2].deviceType);
    assert k == 2;
  }

  /** Among [Cpu, Virtual] the virtual GPU is chosen. */
  lemma VirtualOverCpuExample()
    ensures SelectPhysicalDevice([Device(Cpu), Device(VirtualGpu)]) == Some(Selection(Device(VirtualGpu), 0))
  {
    var two := [Device(Cpu), Device(VirtualGpu)];
    var k := SelectionIsFirstMinimum(two);
    assert Eligible(two[0]);
    assert Rank(two[k].deviceType) <= Rank(two[1].deviceType);
    assert k == 1;
  }

  /** A discrete GPU lacking the required extension, or lacking a compute
      queue family, is passed over in favour of a worse but usable device. */
  lemma FilteringExamples()
    ensures var noExtension := PhysicalDevice("gpu", DiscreteGpu, {}, [QueueFamilyProperties({Compute}, 1)]);
            SelectPhysicalDevice([noExtension, Device(Cpu)]) == Some(Selection(Device(Cpu), 0))
    ensures var noCompute := PhysicalDevice("gpu", DiscreteGpu, RequiredExtensions, [QueueFamilyProperties({Graphics}, 1)]);
            SelectPhysicalDevice([noCompute, Device(Other)]) == Some(Selection(Device(Other), 0))
  {
    var noExtension := PhysicalDevice("gpu", DiscreteGpu, {}, [QueueFamilyProperties({Compute}, 1)]);
    assert "khr_storage_buffer_storage_class" !in noExtension.supportedExtensions;
    var first := [noExtension, Device(Cpu)];
    var k := SelectionIsFirstMinimum(first);
    assert !Eligible(first[0]);
    assert Eligible(first[1]);
    assert k == 1;
    var noCompute := PhysicalDevice("gpu", DiscreteGpu, RequiredExtensions, [QueueFamilyProperties({Graphics}, 1)]);
    assert !IsComputeFamily(noCompute.queueFamilies[0]);
    var second := [noCompute, Device(Other)];
    var k2 := SelectionIsFirstMinimum(second);
    assert !Eligible(second[0]);
    assert Eligible(second[1]);
    assert k2 == 1;
  }
}
