/** cllib/clcommon.cpp, get_all_devices: the devices of all platforms in one array. */
module Devices {

  /**
   * What clGetDeviceIDs does for a platform: the devices it counts and lists, whether the call that
   * fills the array succeeds, and what it leaves in its part of the array if it does not.
   */
  datatype Platform<D> = Platform(devices: seq<D>, fills: bool, remains: seq<D>)

  predicate Lawful<D(!new)>(platforms: seq<Platform<D>>) {
    forall i :: 0 <= i < |platforms| ==> |platforms[i].remains| <= |platforms[i].devices|
  }

  /** Devices counted on all platforms. */
  function Count<D>(platforms: seq<Platform<D>>): nat {
    if platforms == [] then 0 else Count(platforms[..|platforms| - 1]) + |platforms[|platforms| - 1].devices|
  }

  /** The devices of the platforms that fill the array, in order. */
  function Listed<D>(platforms: seq<Platform<D>>): seq<D> {
    if platforms == [] then []
    else
      var last := platforms[|platforms| - 1];
      Listed(platforms[..|platforms| - 1]) + if last.fills then last.devices else []
  }

  lemma {:induction false} CountGrows<D>(platforms: seq<Platform<D>>, n: nat)
    requires n <= |platforms|
    ensures Count(platforms[..n]) <= Count(platforms)
    decreases |platforms|
  {
    if n < |platforms| {
      CountGrows(platforms[..|platforms| - 1], n);
      assert platforms[..|platforms| - 1][..n] == platforms[..n];
    } else {
      assert platforms[..n] == platforms;
    }
  }

  /** The writing part of a clGetDeviceIDs call: devs + offset receives the given values. */
  method Store<D>(devs: array<D>, offset: nat, values: seq<D>)
    requires offset + |values| <= devs.Length
    modifies devs
    ensures devs[offset..offset + |values|] == values && devs[..offset] == old(devs[..offset])
  {
    for k := 0 to |values|
      invariant devs[offset..offset + k] == values[..k] && devs[..offset] == old(devs[..offset])
    {
      devs[offset + k] := values[k];
    }
  }

  /** The first pass: how many devices each platform has, and all of them together. */
  method CountDevices<D>(platforms: seq<Platform<D>>) returns (numDevs: array<nat>, numDevices: nat)
    ensures fresh(numDevs) && numDevs.Length == |platforms| && numDevices == Count(platforms)
    ensures forall j :: 0 <= j < |platforms| ==> numDevs[j] == |platforms[j].devices|
  {
    numDevs := new nat[|platforms|];
    numDevices := 0;
    for i := 0 to |platforms|
      invariant numDevices == Count(platforms[..i])
      invariant forall j :: 0 <= j < i ==> numDevs[j] == |platforms[j].devices|
    {
      assert platforms[..i + 1][..i] == platforms[..i];
      numDevs[i] := |platforms[i].devices|;
      numDevices := numDevices + numDevs[i];
    }
    assert platforms[..|platforms|] == platforms;
  }

  /** One platform more, counted and listed. */
  lemma OneMore<D>(platforms: seq<Platform<D>>, i: nat)
    requires i < |platforms|
    ensures Count(platforms[..i + 1]) == Count(platforms[..i]) + |platforms[i].devices| <= Count(platforms)
    ensures Listed(platforms[..i + 1])
            == Listed(platforms[..i]) + if platforms[i].fills then platforms[i].devices else []
  {
    assert platforms[..i + 1][..i] == platforms[..i];
    CountGrows(platforms, i + 1);
  }

  /** One call of the second pass: where the array is filled up to now, and the devices still expected. */
  method FillFrom<D>(devs: array<D>, platform: Platform<D>, counted: nat, offset: nat, expected: nat)
    returns (offset': nat, expected': nat)
    requires counted == |platform.devices| && |platform.remains| <= counted
    requires offset + counted <= devs.Length && counted <= expected
    modifies devs
    ensures platform.fills ==> offset' == offset + counted && expected' == expected
                               && devs[..offset'] == old(devs[..offset]) + platform.devices
    ensures !platform.fills ==> offset' == offset && expected' == expected - counted
                                && devs[..offset'] == old(devs[..offset])
  {
    offset', expected' := offset, expected;
    if !platform.fills {
      Store(devs, offset, platform.remains);
      expected' := expected - counted;
    } else {
      Store(devs, offset, platform.devices);
      offset' := offset + counted;
      assert devs[..offset'] == devs[..offset] + devs[offset..offset'];
    }
  }

  /**
   * The two passes. At every point of the second, `offset` plus the devices of the platforms still to
   * come is `numDevices`; at the end the first numDevices entries are the devices of exactly the
   * platforms whose second call succeeded.
   */
  method GetAllDevices<D(!new, 0)>(platforms: seq<Platform<D>>) returns (devs: array<D>, numDevices: nat)
    requires Lawful(platforms) && Count(platforms) < 0x1_0000_0000
    ensures fresh(devs) && devs.Length == Count(platforms)
    ensures numDevices == |Listed(platforms)| <= devs.Length && devs[..numDevices] == Listed(platforms)
  {
    var numDevs;
    numDevs, numDevices := CountDevices(platforms);
    devs := new D[numDevices];
    var offset := 0;
    for i := 0 to |platforms|
      modifies devs
      invariant offset + (Count(platforms) - Count(platforms[..i])) == numDevices
      invariant offset <= Count(platforms[..i]) <= Count(platforms)
      invariant offset == |Listed(platforms[..i])| && devs[..offset] == Listed(platforms[..i])
    {
      OneMore(platforms, i);
      offset, numDevices := FillFrom(devs, platforms[i], numDevs[i], offset, numDevices);
    }
    assert platforms[..|platforms|] == platforms;
  }
}
