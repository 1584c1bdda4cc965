/**
 * The table names of the mapped classes of models.py, derived by the naming
 * rule, and the facts about them that the schema relies on.
 */
module Tables {
  import opened Wrappers
  import opened Naming

  const TagClass := ModelClass("Tag", None)
  const TagAssociationClass := ModelClass("TagAssociation", Some("tag_association"))
  const MetaIpClass := ModelClass("MetaIp", None)
  const RouteClass := ModelClass("Route", None)
  const SubnetClass := ModelClass("Subnet", None)
  const AllocatableIpClass := ModelClass("AllocatableIp", None)
  const IpClass := ModelClass("Ip", None)
  const MacPoolClass := ModelClass("MacPool", None)
  const AllocatableMacClass := ModelClass("AllocatableMac", None)
  const MacClass := ModelClass("Mac", None)
  const PortClass := ModelClass("Port", None)
  const NetworkClass := ModelClass("Network", None)

  /** Every mapped class, in declaration order. */
  const MappedClasses: seq<ModelClass> := [TagClass, TagAssociationClass, MetaIpClass, RouteClass, SubnetClass, AllocatableIpClass, IpClass, MacPoolClass, AllocatableMacClass, MacClass, PortClass, NetworkClass]

  lemma WordsTag()
    ensures Concat(["Tag"]) == "Tag"
    ensures IsCapitalisedWord("Tag")
    ensures Lower(JoinWords(["Tag"])) == "tag"
  {
  }

  lemma NamesTag()
    ensures DisplayName("Tag") == "tag"
    ensures CollectionName(TagClass) == "tags"
  {
    WordsTag();
    CamelCaseDisplayName(["Tag"]);
  }

  lemma WordsTagAssociation()
    ensures Concat(["Tag", "Association"]) == "TagAssociation"
    ensures IsCapitalisedWord("Tag") && IsCapitalisedWord("Association")
    ensures Lower(JoinWords(["Tag", "Association"])) == "tag_association"
  {
  }

  lemma NamesTagAssociation()
    ensures DisplayName("TagAssociation") == "tag_association"
    ensures CollectionName(TagAssociationClass) == "tag_association"
  {
    WordsTagAssociation();
    CamelCaseDisplayName(["Tag", "Association"]);
  }

  lemma WordsMetaIp()
    ensures Concat(["Meta", "Ip"]) == "MetaIp"
    ensures IsCapitalisedWord("Meta") && IsCapitalisedWord("Ip")
    ensures Lower(JoinWords(["Meta", "Ip"])) == "meta_ip"
  {
  }

  lemma NamesMetaIp()
    ensures DisplayName("MetaIp") == "meta_ip"
    ensures CollectionName(MetaIpClass) == "meta_ips"
  {
    WordsMetaIp();
    CamelCaseDisplayName(["Meta", "Ip"]);
  }

  lemma WordsRoute()
    ensures Concat(["Route"]) == "Route"
    ensures IsCapitalisedWord("Route")
    ensures Lower(JoinWords(["Route"])) == "route"
  {
  }

  lemma NamesRoute()
    ensures DisplayName("Route") == "route"
    ensures CollectionName(RouteClass) == "routes"
  {
    WordsRoute();
    CamelCaseDisplayName(["Route"]);
  }

  lemma WordsSubnet()
    ensures Concat(["Subnet"]) == "Subnet"
    ensures IsCapitalisedWord("Subnet")
    ensures Lower(JoinWords(["Subnet"])) == "subnet"
  {
  }

  lemma NamesSubnet()
    ensures DisplayName("Subnet") == "subnet"
    ensures CollectionName(SubnetClass) == "subnets"
  {
    WordsSubnet();
    CamelCaseDisplayName(["Subnet"]);
  }

  lemma WordsAllocatableIp()
    ensures Concat(["Allocatable", "Ip"]) == "AllocatableIp"
    ensures IsCapitalisedWord("Allocatable") && IsCapitalisedWord("Ip")
    ensures Lower(JoinWords(["Allocatable", "Ip"])) == "allocatable_ip"
  {
  }

  lemma NamesAllocatableIp()
    ensures DisplayName("AllocatableIp") == "allocatable_ip"
    ensures CollectionName(AllocatableIpClass) == "allocatable_ips"
  {
    WordsAllocatableIp();
    CamelCaseDisplayName(["Allocatable", "Ip"]);
  }

  lemma WordsIp()
    ensures Concat(["Ip"]) == "Ip"
    ensures IsCapitalisedWord("Ip")
    ensures Lower(JoinWords(["Ip"])) == "ip"
  {
  }

  lemma NamesIp()
    ensures DisplayName("Ip") == "ip"
    ensures CollectionName(IpClass) == "ips"
  {
    WordsIp();
    CamelCaseDisplayName(["Ip"]);
  }

  lemma WordsMacPool()
    ensures Concat(["Mac", "Pool"]) == "MacPool"
    ensures IsCapitalisedWord("Mac") && IsCapitalisedWord("Pool")
    ensures Lower(JoinWords(["Mac", "Pool"])) == "mac_pool"
  {
  }

  lemma NamesMacPool()
    ensures DisplayName("MacPool") == "mac_pool"
    ensures CollectionName(MacPoolClass) == "mac_pools"
  {
    WordsMacPool();
    CamelCaseDisplayName(["Mac", "Pool"]);
  }

  lemma WordsAllocatableMac()
    ensures Concat(["Allocatable", "Mac"]) == "AllocatableMac"
    ensures IsCapitalisedWord("Allocatable") && IsCapitalisedWord("Mac")
    ensures Lower(JoinWords(["Allocatable", "Mac"])) == "allocatable_mac"
  {
  }

  lemma NamesAllocatableMac()
    ensures DisplayName("AllocatableMac") == "allocatable_mac"
    ensures CollectionName(AllocatableMacClass) == "allocatable_macs"
  {
    WordsAllocatableMac();
    CamelCaseDisplayName(["Allocatable", "Mac"]);
  }

  lemma WordsMac()
    ensures Concat(["Mac"]) == "Mac"
    ensures IsCapitalisedWord("Mac")
    ensures Lower(JoinWords(["Mac"])) == "mac"
  {
  }

  lemma NamesMac()
    ensures DisplayName("Mac") == "mac"
    ensures CollectionName(MacClass) == "macs"
  {
    WordsMac();
    CamelCaseDisplayName(["Mac"]);
  }

  lemma WordsPort()
    ensures Concat(["Port"]) == "Port"
    ensures IsCapitalisedWord("Port")
    ensures Lower(JoinWords(["Port"])) == "port"
  {
  }

  lemma NamesPort()
    ensures DisplayName("Port") == "port"
    ensures CollectionName(PortClass) == "ports"
  {
    WordsPort();
    CamelCaseDisplayName(["Port"]);
  }

  lemma WordsNetwork()
    ensures Concat(["Network"]) == "Network"
    ensures IsCapitalisedWord("Network")
    ensures Lower(JoinWords(["Network"])) == "network"
  {
  }

  lemma NamesNetwork()
    ensures DisplayName("Network") == "network"
    ensures CollectionName(NetworkClass) == "networks"
  {
    WordsNetwork();
    CamelCaseDisplayName(["Network"]);
  }

  /**
   * The table of every mapped class. The foreign keys name their targets
   * literally ("subnets.uuid", "networks.uuid", "ports.uuid",
   * "mac_pools.uuid", "tag_association.uuid"); each of these is the derived
   * table of the class it refers to.
   */
  lemma TableNames()
    ensures CollectionName(TagClass) == "tags"
    ensures CollectionName(TagAssociationClass) == "tag_association"
    ensures CollectionName(MetaIpClass) == "meta_ips"
    ensures CollectionName(RouteClass) == "routes"
    ensures CollectionName(SubnetClass) == "subnets"
    ensures CollectionName(AllocatableIpClass) == "allocatable_ips"
    ensures CollectionName(IpClass) == "ips"
    ensures CollectionName(MacPoolClass) == "mac_pools"
    ensures CollectionName(AllocatableMacClass) == "allocatable_macs"
    ensures CollectionName(MacClass) == "macs"
    ensures CollectionName(PortClass) == "ports"
    ensures CollectionName(NetworkClass) == "networks"
  {
    NamesTag();
    NamesTagAssociation();
    NamesMetaIp();
    NamesRoute();
    NamesSubnet();
    NamesAllocatableIp();
    NamesIp();
    NamesMacPool();
    NamesAllocatableMac();
    NamesMac();
    NamesPort();
    NamesNetwork();
  }

  /** The table names, in the order of MappedClasses. */
  const TableList: seq<string> := ["tags", "tag_association", "meta_ips", "routes", "subnets", "allocatable_ips", "ips", "mac_pools", "allocatable_macs", "macs", "ports", "networks"]

  lemma TableListDistinct()
    ensures forall i, j :: 0 <= i < j < |TableList| ==> TableList[i] != TableList[j]
  {
  }

  lemma TableListAgreesFirst()
    ensures forall k :: 0 <= k < 6 ==> CollectionName(MappedClasses[k]) == TableList[k]
  {
    forall k | 0 <= k < 6
      ensures CollectionName(MappedClasses[k]) == TableList[k]
    {
      if k == 0 {
        NamesTag();
      } else if k == 1 {
        NamesTagAssociation();
      } else if k == 2 {
        NamesMetaIp();
      } else if k == 3 {
        NamesRoute();
      } else if k == 4 {
        NamesSubnet();
      } else if k == 5 {
        NamesAllocatableIp();
      }
    }
  }

  lemma TableListAgreesRest()
    ensures forall k :: 6 <= k < |MappedClasses| ==> CollectionName(MappedClasses[k]) == TableList[k]
  {
    forall k | 6 <= k < |MappedClasses|
      ensures CollectionName(MappedClasses[k]) == TableList[k]
    {
      if k == 6 {
        NamesIp();
      } else if k == 7 {
        NamesMacPool();
      } else if k == 8 {
        NamesAllocatableMac();
      } else if k == 9 {
        NamesMac();
      } else if k == 10 {
        NamesPort();
      } else if k == 11 {
        NamesNetwork();
      }
    }
  }

  /** TableList is the table name of every mapped class, in order. */
  lemma TableListAgrees()
    ensures |TableList| == |MappedClasses|
    ensures forall k :: 0 <= k < |MappedClasses| ==> CollectionName(MappedClasses[k]) == TableList[k]
  {
    TableListAgreesFirst();
    TableListAgreesRest();
  }

  /** No two mapped classes share a table. */
  lemma TableNamesDistinct()
    ensures forall i, j :: 0 <= i < j < |MappedClasses| ==>
              CollectionName(MappedClasses[i]) != CollectionName(MappedClasses[j])
  {
    TableListAgrees();
    TableListDistinct();
  }
}
