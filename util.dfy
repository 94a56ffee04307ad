/**
 * The address check of ValidateIP: the first dotted four-part address on
 * the interface "en0" decides, by its first two parts.
 */
module Util {
  import opened Wrappers
  import opened Text

  /** A network interface with the text of its addresses (an address lookup that failed gives none). */
  datatype Interface = Interface(name: string, addrs: seq<string>)

  /** The result of net.Interfaces(): the list, or the error it returned. */
  datatype Enumeration = Listed(interfaces: seq<Interface>) | EnumerationError(message: string)

  /** Go's (bool, error) pair. */
  datatype IpResult = IpResult(valid: bool, err: Option<string>)

  const Wifi := "en0"

  /** The pieces of the first address that splits into exactly four parts on '.'. */
  function FirstQuadIn(addrs: seq<string>): (r: Option<seq<string>>)
    ensures r.Some? ==> |r.value| == 4
    decreases |addrs|
  {
    if addrs == [] then None
    else if |Split(addrs[0], '.')| == 4 then Some(Split(addrs[0], '.'))
    else FirstQuadIn(addrs[1..])
  }

  /** The first four-part address over all interfaces named "en0", in order. */
  function FirstQuad(interfaces: seq<Interface>): (r: Option<seq<string>>)
    ensures r.Some? ==> |r.value| == 4
    decreases |interfaces|
  {
    if interfaces == [] then None
    else
      var here := if interfaces[0].name == Wifi then FirstQuadIn(interfaces[0].addrs) else None;
      if here.Some? then here else FirstQuad(interfaces[1..])
  }

  /** The verdict the first four-part address gives against the configured two leading parts. */
  function Verdict(interfaces: seq<Interface>, sub1: string, sub2: string): (r: IpResult)
    ensures r.err.None?
    ensures r.valid ==> FirstQuad(interfaces).Some?
    ensures FirstQuad(interfaces).Some? ==>
      (r.valid <==> FirstQuad(interfaces).value[0] == sub1 && FirstQuad(interfaces).value[1] == sub2)
  {
    match FirstQuad(interfaces)
    case None => IpResult(false, None)
    case Some(parts) => IpResult(parts[0] == sub1 && parts[1] == sub2, None)
  }

  lemma {:induction false} FirstQuadInAppend(a: seq<string>, b: seq<string>)
    ensures FirstQuadIn(a + b) == if FirstQuadIn(a).Some? then FirstQuadIn(a) else FirstQuadIn(b)
    decreases |a|
  {
    if a != [] {
      assert (a + b)[0] == a[0];
      assert (a + b)[1..] == a[1..] + b;
      FirstQuadInAppend(a[1..], b);
    } else {
      assert a + b == b;
    }
  }

  lemma {:induction false} FirstQuadAppend(a: seq<Interface>, b: seq<Interface>)
    ensures FirstQuad(a + b) == if FirstQuad(a).Some? then FirstQuad(a) else FirstQuad(b)
    decreases |a|
  {
    if a != [] {
      assert (a + b)[0] == a[0];
      assert (a + b)[1..] == a[1..] + b;
      FirstQuadAppend(a[1..], b);
    } else {
      assert a + b == b;
    }
  }

  /** ValidateIP over the enumerated interfaces and the configured VALID_IP_ADDR_1 and VALID_IP_ADDR_2. */
  method ValidateIP(enumeration: Enumeration, sub1: string, sub2: string) returns (r: IpResult)
    ensures enumeration.EnumerationError? ==> r == IpResult(false, Some(enumeration.message))
    ensures enumeration.Listed? ==> r == Verdict(enumeration.interfaces, sub1, sub2)
  {
    if enumeration.EnumerationError? {
      return IpResult(false, Some(enumeration.message));
    }
    var interfaces := enumeration.interfaces;
    var i := 0;
    while i < |interfaces|
      invariant 0 <= i <= |interfaces|
      invariant FirstQuad(interfaces[..i]) == None
    {
      FirstQuadAppend(interfaces[..i], interfaces[i..]);
      assert interfaces[..i] + interfaces[i..] == interfaces;
      if interfaces[i].name == Wifi {
        var addresses := interfaces[i].addrs;
        var j := 0;
        while j < |addresses|
          invariant 0 <= j <= |addresses|
          invariant FirstQuadIn(addresses[..j]) == None
        {
          FirstQuadInAppend(addresses[..j], addresses[j..]);
          assert addresses[..j] + addresses[j..] == addresses;
          var addressSlice := Split(addresses[j], '.');
          if |addressSlice| == 4 {
            assert FirstQuad(interfaces[i..]) == FirstQuadIn(addresses) == Some(addressSlice);
            if addressSlice[0] == sub1 && addressSlice[1] == sub2 {
              return IpResult(true, None);
            }
            return IpResult(false, None);
          }
          FirstQuadInAppend(addresses[..j], [addresses[j]]);
          assert addresses[..j + 1] == addresses[..j] + [addresses[j]];
          j := j + 1;
        }
        assert addresses[..j] == addresses;
      }
      FirstQuadAppend(interfaces[..i], [interfaces[i]]);
      assert interfaces[..i + 1] == interfaces[..i] + [interfaces[i]];
      i := i + 1;
    }
    assert interfaces[..i] == interfaces;
    return IpResult(false, None);
  }

  /** Interfaces not named "en0" never change the verdict. */
  lemma OnlyWifiConsulted(before: seq<Interface>, other: Interface, after: seq<Interface>, sub1: string, sub2: string)
    requires other.name != Wifi
    ensures Verdict(before + [other] + after, sub1, sub2) == Verdict(before + after, sub1, sub2)
  {
    FirstQuadAppend(before + [other], after);
    FirstQuadAppend(before, [other]);
    FirstQuadAppend(before, after);
    assert FirstQuad([other]) == None by {
      assert [other][1..] == [];
    }
  }

  /** Once an address splits into four parts, nothing after it is looked at. */
  lemma LaterAddressesIgnored(addrs: seq<string>, more: seq<string>)
    requires FirstQuadIn(addrs).Some?
    ensures FirstQuadIn(addrs + more) == FirstQuadIn(addrs)
  {
    FirstQuadInAppend(addrs, more);
  }

  /** An address decides exactly when it has three dots. */
  lemma DecidingAddress(address: string)
    ensures FirstQuadIn([address]).Some? <==> Count(address, '.') == 3
  {
    SplitCount(address, '.');
    assert [address][1..] == [];
  }

  /** Without a four-part address on "en0" the answer is (false, nil). */
  lemma NoQuadRejects(interfaces: seq<Interface>, sub1: string, sub2: string)
    requires forall i, j | 0 <= i < |interfaces| && 0 <= j < |interfaces[i].addrs| ::
      interfaces[i].name == Wifi ==> Count(interfaces[i].addrs[j], '.') != 3
    ensures Verdict(interfaces, sub1, sub2) == IpResult(false, None)
  {
    NoQuadIsNone(interfaces);
  }

  lemma {:induction false} NoQuadIsNone(interfaces: seq<Interface>)
    requires forall i, j | 0 <= i < |interfaces| && 0 <= j < |interfaces[i].addrs| ::
      interfaces[i].name == Wifi ==> Count(interfaces[i].addrs[j], '.') != 3
    ensures FirstQuad(interfaces) == None
    decreases |interfaces|
  {
    if interfaces != [] {
      if interfaces[0].name == Wifi {
        NoQuadInIsNone(interfaces[0].addrs);
      }
      NoQuadIsNone(interfaces[1..]);
    }
  }

  lemma {:induction false} NoQuadInIsNone(addrs: seq<string>)
    requires forall j | 0 <= j < |addrs| :: Count(addrs[j], '.') != 3
    ensures FirstQuadIn(addrs) == None
    decreases |addrs|
  {
    if addrs != [] {
      SplitCount(addrs[0], '.');
      NoQuadInIsNone(addrs[1..]);
    }
  }
}
