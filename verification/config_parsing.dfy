/**
  The value-level logic of the configuration manager: parsing the key-value
  endpoint into host and port, taking the major version, and resolving node
  names and ids from the mappings the key-value client returns.
*/
module ConfigParsing {
  import opened Wrappers
  import opened PyStr
  import opened Stores

  /** The message Python's `IndexError` carries for a list index out of range. */
  const ListIndexOutOfRange: string := "list index out of range"

  /**
    `endpoint.split(":")[1].strip("//")` as host and `endpoint.split(":")[-1]` as
    port; indexing the second piece fails when the endpoint holds no `:`.
  */
  function ParseEndpoint(endpoint: string): (r: Result<(string, string), Error>)
    ensures r.Failure? <==> ':' !in endpoint
    ensures r.Failure? ==> r.error == IndexError(ListIndexOutOfRange)
    ensures r.Success? ==> ':' !in r.value.0 && ':' !in r.value.1
    ensures r.Success? && r.value.0 != [] ==> r.value.0[0] != '/' && r.value.0[|r.value.0| - 1] != '/'
  {
    var parts := Split(endpoint, ':');
    SplitHasSeveralPieces(endpoint, ':');
    if |parts| < 2 then Failure(IndexError(ListIndexOutOfRange))
    else
      var host := Strip(parts[1], "//");
      StripKeepsColonOut(parts[1], "//");
      Success((host, parts[|parts| - 1]))
  }

  /** Stripping keeps a string free of a character it was free of. */
  lemma StripKeepsColonOut(s: string, chars: string)
    requires ':' !in s
    ensures ':' !in Strip(s, chars)
  {
    var i := StripIsInfix(s, chars);
    var r := Strip(s, chars);
    forall k | 0 <= k < |r| ensures r[k] != ':' {
      assert r[k] == s[i + k];
    }
  }

  /** The endpoint `scheme://host:port` as it is written in the configuration. */
  function FormatEndpoint(scheme: string, host: string, port: string): string
  {
    scheme + "://" + host + ":" + port
  }

  /** Parsing a well-formed `scheme://host:port` endpoint recovers its host and port. */
  lemma ParseFormattedEndpoint(scheme: string, host: string, port: string)
    requires ':' !in scheme && ':' !in host && ':' !in port
    requires host == [] || (host[0] != '/' && host[|host| - 1] != '/')
    ensures ParseEndpoint(FormatEndpoint(scheme, host, port)) == Success((host, port))
  {
    var parts := [scheme, "//" + host, port];
    assert ':' !in "//" + host;
    assert Join(parts[1..], ':') == "//" + host + [':'] + port by {
      assert parts[1..][1..] == [port];
    }
    assert Join(parts, ':') == FormatEndpoint(scheme, host, port);
    SplitOfJoin(parts, ':');
    StripAfterPrefix("//", host, "//");
  }

  /**
    For any endpoint, written as its `:`-pieces: the host is the second piece
    with `/` stripped at both ends and the port is the last piece.
  */
  lemma ParseEndpointOfPieces(parts: seq<string>)
    requires |parts| >= 2
    requires forall i :: 0 <= i < |parts| ==> ':' !in parts[i]
    ensures ParseEndpoint(Join(parts, ':')) == Success((Strip(parts[1], "//"), parts[|parts| - 1]))
  {
    var endpoint := Join(parts, ':');
    SplitOfJoin(parts, ':');
    var ps := Split(endpoint, ':');
    assert ps == parts;
    assert ParseEndpoint(endpoint) == Success((Strip(ps[1], "//"), ps[|ps| - 1])) by {
      assert ParseEndpoint(endpoint) == (
        var pieces := Split(endpoint, ':');
        if |pieces| < 2 then Failure(IndexError(ListIndexOutOfRange))
        else Success((Strip(pieces[1], "//"), pieces[|pieces| - 1])));
    }
  }

  /** The pieces of `http://[::1]:8500` joined back with `:`. */
  lemma IPv6EndpointPieces()
    ensures Join(["http", "//[", "", "1]", "8500"], ':') == "http://[::1]:8500"
  {
    var parts := ["http", "//[", "", "1]", "8500"];
    assert parts[1..] == ["//[", "", "1]", "8500"];
    assert parts[1..][1..] == ["", "1]", "8500"];
    assert parts[1..][1..][1..] == ["1]", "8500"];
    assert parts[1..][1..][1..][1..] == ["8500"];
  }

  /** The pieces of `http://[::1]:8500` parse to host `[` and port `8500`. */
  lemma ParseIPv6Pieces(parts: seq<string>)
    requires parts == ["http", "//[", "", "1]", "8500"]
    ensures ParseEndpoint(Join(parts, ':')) == Success(("[", "8500"))
  {
    assert ':' !in parts[0] && ':' !in parts[1] && ':' !in parts[2] && ':' !in parts[3] && ':' !in parts[4];
    ParseEndpointOfPieces(parts);
    assert "//" + "[" == parts[1];
    StripAfterPrefix("//", "[", "//");
  }

  /** A bracketed IPv6 endpoint is cut at its first `:`, so the host is `[`. */
  lemma ParseEndpointIPv6Example()
    ensures ParseEndpoint("http://[::1]:8500") == Success(("[", "8500"))
  {
    var parts := ["http", "//[", "", "1]", "8500"];
    IPv6EndpointPieces();
    ParseIPv6Pieces(parts);
  }

  /** Without a scheme the second piece is the port, so the port is also taken as the host. */
  lemma ParseEndpointWithoutScheme(host: string, port: string)
    requires ':' !in host && ':' !in port
    ensures ParseEndpoint(host + ":" + port) == Success((Strip(port, "//"), port))
  {
    var parts := [host, port];
    assert parts[1..] == [port];
    assert Join(parts, ':') == host + ":" + port;
    SplitOfJoin(parts, ':');
  }

  lemma ParseEndpointExample()
    ensures ParseEndpoint("http://10.0.0.5:8500") == Success(("10.0.0.5", "8500"))
  {
    assert FormatEndpoint("http", "10.0.0.5", "8500") == "http://10.0.0.5:8500";
    ParseFormattedEndpoint("http", "10.0.0.5", "8500");
  }

  /**
    `version.split('.')[0]`: the longest prefix of `version` without a dot,
    returned as a string.
  */
  function MajorVersion(version: string): (r: string)
    ensures r <= version
    ensures '.' !in r
    ensures |r| < |version| ==> version[|r|] == '.'
  {
    SplitFirstPiece(version, '.');
    Split(version, '.')[0]
  }

  /** The three properties of `MajorVersion` determine its result. */
  lemma MajorVersionUnique(version: string, p: string)
    requires p <= version && '.' !in p
    requires |p| < |version| ==> version[|p|] == '.'
    ensures p == MajorVersion(version)
  {
    var r := MajorVersion(version);
    assert |p| == |r|;
  }

  /** A version without a dot is its own major version. */
  lemma MajorVersionWithoutDot(version: string)
    requires '.' !in version
    ensures MajorVersion(version) == version
  {
    MajorVersionUnique(version, version);
  }

  lemma MajorVersionExamples()
    ensures MajorVersion("2.0.0-beta") == "2"
    ensures MajorVersion("10.3") == "10"
  {
    MajorVersionUnique("2.0.0-beta", "2");
    MajorVersionUnique("10.3", "10");
  }

  /** `key.split('/')[-1]`: the longest suffix of `key` without a slash. */
  function LastSegment(key: string): (r: string)
    ensures |r| <= |key| && r == key[|key| - |r|..]
    ensures '/' !in r
    ensures |r| < |key| ==> key[|key| - |r| - 1] == '/'
  {
    var parts := Split(key, '/');
    SplitLastPiece(key, '/');
    parts[|parts| - 1]
  }

  /** The three properties of `LastSegment` determine its result. */
  lemma LastSegmentUnique(key: string, p: string)
    requires |p| <= |key| && p == key[|key| - |p|..] && '/' !in p
    requires |p| < |key| ==> key[|key| - |p| - 1] == '/'
    ensures p == LastSegment(key)
  {
    var r := LastSegment(key);
    assert |p| == |r|;
  }

  /** The position of the first pair whose value is `id`, or `|items|` when there is none. */
  function FirstIndexOf(items: Dict, id: string): (k: nat)
    ensures k <= |items|
    ensures forall j :: 0 <= j < k ==> items[j].1 != id
    ensures k < |items| ==> items[k].1 == id
    decreases |items|
  {
    if items == [] then 0
    else if items[0].1 == id then 0
    else 1 + FirstIndexOf(items[1..], id)
  }

  /** The text of the `HAInvalidNode` raised for an unknown node id. */
  function InvalidNodeMessage(id: string): (m: string)
    ensures |m| >= 8 + |id| && m[8..8 + |id|] == id
  {
    "node_id " + id + " is not valid."
  }

  /**
    `get_node_name` on the fetched mapping: the last `/`-segment of the key of
    the first pair whose value is `id`; `HAInvalidNode` naming `id` when no
    value equals `id`.
  */
  function NodeNameOf(items: Dict, id: string): (r: Result<string, Error>)
    ensures r.Failure? <==> forall j :: 0 <= j < |items| ==> items[j].1 != id
    ensures r.Failure? ==> r.error == HAInvalidNode(InvalidNodeMessage(id))
    ensures r.Success? ==> exists k :: (0 <= k < |items| && items[k].1 == id
      && (forall j :: 0 <= j < k ==> items[j].1 != id) && r.value == LastSegment(items[k].0))
  {
    var k := FirstIndexOf(items, id);
    if k == |items| then Failure(HAInvalidNode(InvalidNodeMessage(id)))
    else Success(LastSegment(items[k].0))
  }

  /** The scan `get_node_name` runs over the pairs of the fetched mapping, returning at the first match. */
  method FindNodeName(items: Dict, nodeId: string) returns (r: Result<string, Error>)
    ensures r == NodeNameOf(items, nodeId)
  {
    for i := 0 to |items|
      invariant forall j :: 0 <= j < i ==> items[j].1 != nodeId
    {
      var (key, nodeid) := items[i];
      if nodeid == nodeId {
        assert FirstIndexOf(items, nodeId) == i;
        return Success(LastSegment(key));
      }
    }
    assert FirstIndexOf(items, nodeId) == |items|;
    return Failure(HAInvalidNode(InvalidNodeMessage(nodeId)));
  }

  /** `dict.popitem()`: removes and returns the last pair inserted; fails on an empty dict. */
  function PopItem(d: Dict): (r: Result<((string, string), Dict), Error>)
    ensures r.Failure? <==> d == []
    ensures r.Failure? ==> r.error.KeyError?
    ensures r.Success? ==> d == r.value.1 + [r.value.0]
  {
    if d == [] then Failure(KeyError("popitem(): dictionary is empty"))
    else Success((d[|d| - 1], d[..|d| - 1]))
  }

  /** `get_node_id` on the fetched mapping: the value of the pair `popitem` removes. */
  function NodeIdOf(d: Dict): (r: Result<string, Error>)
    ensures r.Failure? <==> d == []
    ensures r.Success? ==> exists k :: (k, r.value) == d[|d| - 1]
  {
    var popped :- PopItem(d);
    Success(popped.0.1)
  }

  /** A one-entry mapping `{k: v}` yields `v`. */
  lemma NodeIdOfSingleEntry(k: string, v: string)
    ensures NodeIdOf([(k, v)]) == Success(v)
  {
  }

  /** Node ids are unique in the mapping. */
  predicate UniqueIds(items: Dict)
  {
    forall i, j :: 0 <= i < j < |items| ==> items[i].1 != items[j].1
  }

  /**
    Name and id resolve to each other: for the entry `(key, id)` of a mapping
    with unique ids, the per-name lookup of that single entry gives `id` and
    the reverse lookup of `id` gives the last segment of `key`.
  */
  lemma NameIdRoundTrip(items: Dict, k: nat)
    requires UniqueIds(items) && k < |items|
    ensures NodeIdOf([items[k]]) == Success(items[k].1)
    ensures NodeNameOf(items, items[k].1) == Success(LastSegment(items[k].0))
  {
    assert FirstIndexOf(items, items[k].1) == k;
  }

  lemma NodeIdExample()
    ensures NodeIdOf([("prefix/node1", "id-A")]) == Success("id-A")
  {
    NodeIdOfSingleEntry("prefix/node1", "id-A");
  }

  lemma NodeNameExample()
    ensures NodeNameOf([("prefix/node1", "id-A"), ("prefix/node2", "id-B")], "id-B") == Success("node2")
  {
    var items := [("prefix/node1", "id-A"), ("prefix/node2", "id-B")];
    assert UniqueIds(items) by {
      assert items[0].1[3] != items[1].1[3];
    }
    NameIdRoundTrip(items, 1);
    LastSegmentExample();
  }

  lemma LastSegmentExample()
    ensures LastSegment("prefix/node2") == "node2"
  {
    var key := "prefix/node2";
    assert key[7..] == "node2" && key[6] == '/';
    LastSegmentUnique(key, "node2");
  }

  lemma UnknownNodeExample()
    ensures NodeNameOf([("prefix/node1", "id-A"), ("prefix/node2", "id-B")], "id-ZZZ")
      == Failure(HAInvalidNode(InvalidNodeMessage("id-ZZZ")))
  {
    assert |"id-A"| != |"id-ZZZ"| && |"id-B"| != |"id-ZZZ"|;
  }
}
