/**
 Product discovery (beoutil/products.go): every mDNS advertisement of the
 `_beoremote._tcp` service contributes one record to a directory keyed by the
 advertisement's `jid` attribute. The zeroconf browse itself is replaced by
 the sequence of advertisements it delivered, in delivery order.
 */
module Discovery {
  import opened Results
  import opened Strings
  import Keyed

  /** The rendered form of one IPv4 address (`net.IP.String`). */
  type Address = string

  /** One zeroconf service entry: its TXT strings and its IPv4 addresses. */
  datatype Advertisement = Advertisement(text: seq<string>, addrIPv4: seq<Address>)

  /** `ProductDetails`: what is remembered about one product between runs. */
  datatype ProductDetails = ProductDetails(ips: seq<Address>, name: string, jid: string)

  type Directory = map<string, ProductDetails>

  // ---------------------------------------------------------------------
  // TXT attributes

  /** The key a TXT string defines, if it contains '='. */
  function KeyOf(t: string): Option<string> {
    match SplitFirst(t, '=')
    case Some(kv) => Some(kv.0)
    case None => None
  }

  /** Folds the TXT strings of one advertisement into a key/value map; later strings override earlier ones. */
  function Attributes(text: seq<string>): (m: map<string, string>)
    ensures forall k :: k in m ==> '=' !in k
    ensures |m| <= |text|
  {
    if |text| == 0 then map[]
    else
      var m := Attributes(text[..|text| - 1]);
      match SplitFirst(text[|text| - 1], '=')
      case Some(kv) => m[kv.0 := kv.1]
      case None => m
  }

  /** A Go map lookup: the zero value "" when the key is absent. */
  function Lookup(m: map<string, string>, k: string): string {
    if k in m then m[k] else ""
  }

  /** Position of the last TXT string that defines `k`, or -1. */
  function LastDefining(text: seq<string>, k: string): (i: int)
    ensures -1 <= i < |text|
    ensures i >= 0 ==> KeyOf(text[i]) == Some(k)
    ensures forall j :: i < j < |text| ==> KeyOf(text[j]) != Some(k)
  {
    if |text| == 0 then -1
    else if KeyOf(text[|text| - 1]) == Some(k) then |text| - 1
    else
      var init := text[..|text| - 1];
      assert forall j :: 0 <= j < |init| ==> init[j] == text[j];
      LastDefining(init, k)
  }

  /** The attribute map holds `k` iff some string defines it, with the value of the last one. */
  lemma {:induction false} AttributesAt(text: seq<string>, k: string)
    ensures k in Attributes(text) <==> LastDefining(text, k) >= 0
    ensures k in Attributes(text) ==> SplitFirst(text[LastDefining(text, k)], '=') == Some((k, Attributes(text)[k]))
  {
    if |text| > 0 {
      var init := text[..|text| - 1];
      var last := text[|text| - 1];
      AttributesAt(init, k);
      var i := LastDefining(init, k);
      match SplitFirst(last, '=')
      case Some(kv) =>
        assert Attributes(text) == Attributes(init)[kv.0 := kv.1];
        if kv.0 == k {
          assert LastDefining(text, k) == |text| - 1;
        } else {
          assert LastDefining(text, k) == i;
          assert i >= 0 ==> init[i] == text[i];
        }
      case None =>
        assert Attributes(text) == Attributes(init);
        assert LastDefining(text, k) == i;
        assert i >= 0 ==> init[i] == text[i];
    }
  }

  /**
   Every key of the attribute map comes from a TXT string that contains '=',
   and its value is what follows the first '=' of the LAST such string.
   */
  lemma AttributesLastWins(text: seq<string>, k: string)
    ensures k in Attributes(text) <==> exists i :: 0 <= i < |text| && KeyOf(text[i]) == Some(k)
    ensures k in Attributes(text) ==>
      exists i :: 0 <= i < |text| && text[i] == k + "=" + Attributes(text)[k]
        && (forall j :: i < j < |text| ==> KeyOf(text[j]) != Some(k))
  {
    AttributesAt(text, k);
    var i := LastDefining(text, k);
    if i >= 0 {
      assert text[i] == k + "=" + Attributes(text)[k];
    }
  }

  /** A TXT string without '=' adds nothing to the attribute map. */
  lemma StringWithoutEqualsIgnored(text: seq<string>, t: string)
    requires '=' !in t
    ensures Attributes(text + [t]) == Attributes(text)
  {
    assert (text + [t])[..|text|] == text;
  }

  // ---------------------------------------------------------------------
  // The directory fold

  function JidOf(ad: Advertisement): string {
    Lookup(Attributes(ad.text), "jid")
  }

  /** The record stored for one advertisement: its addresses, `name` and `jid` attributes (or ""). */
  function Record(ad: Advertisement): (r: ProductDetails)
    ensures r.ips == ad.addrIPv4
    ensures r.jid == JidOf(ad)
    ensures r.name == (if "name" in Attributes(ad.text) then Attributes(ad.text)["name"] else "")
  {
    var m := Attributes(ad.text);
    ProductDetails(ad.addrIPv4, Lookup(m, "name"), Lookup(m, "jid"))
  }

  /**
   The directory after the given advertisements: each stored under its jid,
   a later one replacing an earlier one. An advertisement without a `jid`
   is stored under "".
   */
  function Fold(ads: seq<Advertisement>): (d: Directory)
    ensures forall k :: k in d ==> d[k].jid == k
    ensures |d| <= |ads|
  {
    var d := Keyed.Index(ads, JidOf, Record);
    forall k | k in d
      ensures d[k].jid == k
    {
      Keyed.IndexLastWins(ads, JidOf, Record, k);
    }
    Keyed.IndexSize(ads, JidOf, Record);
    d
  }

  /**
   Keys are exactly the jids of the advertisements, and each key holds the
   record of the LAST advertisement with that jid: an earlier address list
   is replaced wholesale, never unioned.
   */
  lemma FoldLastWins(ads: seq<Advertisement>, k: string)
    ensures k in Fold(ads) <==> exists i :: 0 <= i < |ads| && JidOf(ads[i]) == k
    ensures k in Fold(ads) ==>
      exists i :: 0 <= i < |ads| && JidOf(ads[i]) == k && Fold(ads)[k] == Record(ads[i]) && (forall j :: i < j < |ads| ==> JidOf(ads[j]) != k)
  {
    Keyed.IndexLastWins(ads, JidOf, Record, k);
    var i := Keyed.LastWithKey(ads, JidOf, k);
    if i < 0 {
      assert forall j :: 0 <= j < |ads| ==> JidOf(ads[j]) != k;
    }
  }

  /** An advertisement without a `jid` attribute is kept, under the key "". */
  lemma MissingJidStoredUnderEmptyKey(ads: seq<Advertisement>, i: nat)
    requires i < |ads| && "jid" !in Attributes(ads[i].text)
    ensures "" in Fold(ads)
  {
    assert JidOf(ads[i]) == "";
    FoldLastWins(ads, "");
  }

  /** A later advertisement overrides the record of its jid, addresses included. */
  lemma LaterAdvertisementReplaces(ads: seq<Advertisement>, ad: Advertisement)
    ensures JidOf(ad) in Fold(ads + [ad])
    ensures Fold(ads + [ad])[JidOf(ad)].ips == ad.addrIPv4
  {
    Keyed.IndexLastWins(ads + [ad], JidOf, Record, JidOf(ad));
  }

  // ---------------------------------------------------------------------
  // discoverProducts

  /**
   `discoverProducts`: `resolverErr` and `browseErr` are what
   `zeroconf.NewResolver` and `Browse` returned, `ads` what the browse
   delivered before the context expired.
   */
  function DiscoverProducts(resolverErr: Option<Error>, browseErr: Option<Error>, ads: seq<Advertisement>): (r: Result<Directory, Error>)
    ensures resolverErr.Some? ==> r == Err(resolverErr.value)
    ensures resolverErr.None? && browseErr.Some? ==> r == Err(browseErr.value)
    ensures r.Ok? <==> resolverErr.None? && browseErr.None?
    ensures r.Ok? ==> forall k :: k in r.value ==> r.value[k].jid == k
    ensures r.Ok? ==> |r.value| <= |ads|
    ensures r.Ok? && |ads| == 0 ==> r.value == map[]
    ensures r.Ok? ==> r.value == Fold(ads)
  {
    if resolverErr.Some? then Err(resolverErr.value)
    else if browseErr.Some? then Err(browseErr.value)
    else Ok(Fold(ads))
  }
}
