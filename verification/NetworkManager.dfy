/** NetworkManager: the ports table of the nodes and the virtual addresses of the users. */
module NetworkManager {
  import opened Wrappers
  import opened IpText
  import opened PortsTable
  import opened VirtualIps

  class NetworkManager {
    var portsPerNode: seq<PortTable>
    var ipBasis: string
    var ipsCloud: seq<UserSet>

    constructor ()
      ensures portsPerNode == [] && ipBasis == "" && ipsCloud == []
    {
      portsPerNode, ipBasis, ipsCloud := [], "", [];
    }

    // -------------------------------------------------------------- ports table

    method RegisterNode(nodeIP: string, before: Quad, serial: nat)
      modifies this`portsPerNode
      ensures portsPerNode == Register(old(portsPerNode), PortTable(ReadIp(nodeIP, before), serial))
    {
      Insert(PortTable(ReadIp(nodeIP, before), serial));
    }

    method Insert(e: PortTable)
      modifies this`portsPerNode
      ensures portsPerNode == Register(old(portsPerNode), e)
    {
      var found, i, size := false, 0, |portsPerNode|;
      while i < size && !found
        invariant 0 <= i <= size == |old(portsPerNode)|
        invariant !found ==> portsPerNode == old(portsPerNode)
        invariant !found ==> Register(portsPerNode, e) == portsPerNode[..i] + Register(portsPerNode[i..], e)
        invariant found ==> portsPerNode == Register(old(portsPerNode), e)
        decreases size - i, !found
      {
        if !IsMajorIP(e.ip, portsPerNode[i].ip) {
          assert Register(portsPerNode[i..], e) == [e] + portsPerNode[i..];
          portsPerNode := portsPerNode[..i] + [e] + portsPerNode[i..];
          found := true;
        } else {
          RegisterBehind(portsPerNode, i, e);
          i := i + 1;
        }
      }
      if !found {
        portsPerNode := portsPerNode + [e];
      }
    }

    method GetNodeFromPortsTable(nodeIP: string, before: Quad) returns (element: Option<nat>)
      ensures element == Lookup(portsPerNode, ReadIp(nodeIP, before))
    {
      element := Search(ReadIp(nodeIP, before));
    }

    method Search(ip: Ip) returns (element: Option<nat>)
      ensures element == Lookup(portsPerNode, ip)
    {
      if |portsPerNode| == 1 {
        return Some(0);
      }
      element := HalvingSearch(ip);
      if element.None? {
        element := FallBack(ip);
      }
    }

    /** The counter and the bounds as the source has them. Its branch for an empty range
        (which would leave the result unset) is never reached. */
    method HalvingSearch(ip: Ip) returns (element: Option<nat>)
      ensures element == HalvingAll(portsPerNode, ip)
    {
      element := None;
      var size := |portsPerNode|;
      ghost var found := HalvingAll(portsPerNode, ip);
      var lower, higher, counter := 0, size, 0;
      while 0 < higher && element.None? && counter < size
        invariant 0 <= lower <= higher <= size && counter <= size
        invariant size > 0 ==> lower < higher
        invariant size > 0 && element.None? ==> Halving(portsPerNode, ip, lower, higher, size - counter) == found
        invariant element.Some? ==> element == found
        decreases size - counter, element.None?
      {
        counter := counter + 1;
        if higher == lower {
          assert false;
        } else {
          var medium := (higher - lower) / 2;
          var testing := portsPerNode[lower + medium].ip;
          if testing.text == ip.text {
            element := Some(lower + medium);
          } else if IsMajorIP(testing, ip) {
            higher := higher - medium;
          } else {
            lower := lower + medium;
          }
        }
      }
    }

    method FallBack(ip: Ip) returns (element: Option<nat>)
      ensures element == LastMatch(portsPerNode, ip)
    {
      element := None;
      var i := 0;
      while i < |portsPerNode|
        invariant 0 <= i <= |portsPerNode| && element == LastMatch(portsPerNode[..i], ip)
      {
        assert portsPerNode[..i + 1][..i] == portsPerNode[..i];
        if portsPerNode[i].ip.text == ip.text {
          element := Some(i);
        }
        i := i + 1;
      }
      assert portsPerNode[..i] == portsPerNode;
    }

    // -------------------------------------------------------------- virtual addresses

    method CreateNewUser(newUserID: int)
      modifies this`ipsCloud
      ensures ipsCloud == old(ipsCloud) + [UserSet(newUserID, [], [], ipBasis)]
    {
      ipsCloud := ipsCloud + [UserSet(newUserID, [], [], ipBasis)];
    }

    /** The two branches of the source that do not take a hole differ only in the text
        they read, which is the same one. */
    method NewVIPFor(user: UserSet, before: Quad) returns (issued: Issued)
      ensures issued == NewVIP(user, before)
    {
      if |user.holesIP| != 0 {
        issued := Issued(user.(holesIP := user.holesIP[1..]), user.holesIP[0]);
      } else if ipBasis == user.lastIP {
        var vip := new VirtualIPs();
        vip.SetVirtualIP(ipBasis, before);
        var ip := vip.IncVirtualIP();
        issued := Issued(user.(lastIP := ip), ip);
      } else {
        var vip := new VirtualIPs();
        vip.SetVirtualIP(user.lastIP, before);
        var ip := vip.IncVirtualIP();
        issued := Issued(user.(lastIP := ip), ip);
      }
    }

    /** allocateVirtualIP(): the first entry of the user gets a new cell; no entry, no address. */
    method AllocateVirtualIP(ipNode: string, userID: int, vmID: int, before: Quad) returns (virtualIP: string)
      modifies this`ipsCloud
      ensures var i := EntryOf(old(ipsCloud), userID);
              if i == |old(ipsCloud)| then virtualIP == "" && ipsCloud == old(ipsCloud)
              else
                var issued := NewVIP(old(ipsCloud)[i], before);
                && virtualIP == issued.ip
                && |ipsCloud| == |old(ipsCloud)|
                && (forall j :: 0 <= j < |ipsCloud| && j != i ==> ipsCloud[j] == old(ipsCloud)[j])
                && ipsCloud[i].userID == userID
                && ipsCloud[i].cells == old(ipsCloud)[i].cells + [Cell(ipNode, virtualIP, vmID)]
                && ipsCloud[i].lastIP == issued.user.lastIP && ipsCloud[i].holesIP == issued.user.holesIP
    {
      virtualIP := "";
      var it := 0;
      while it < |ipsCloud| && ipsCloud[it].userID != userID
        invariant 0 <= it <= |ipsCloud| && EntryOf(ipsCloud, userID) == it + EntryOf(ipsCloud[it..], userID)
      {
        assert ipsCloud[it..][1..] == ipsCloud[it + 1..];
        it := it + 1;
      }
      if it < |ipsCloud| {
        var issued := NewVIPFor(ipsCloud[it], before);
        virtualIP := issued.ip;
        ipsCloud := ipsCloud[it := issued.user.(cells := issued.user.cells + [Cell(ipNode, virtualIP, vmID)])];
      }
    }
  }
}
