/** Content items and the header classification that picks a cache segment. */
module ContentItems {

  /** A cached object: identifier, cost in capacity units, classification header and payload.
      Equality of two items is structural equality of all four fields. */
  datatype ContentItem = ContentItem(cid: int, size: nat, header: string, content: string)

  /** Field-by-field comparison of two items; it agrees with datatype equality. */
  function Equals(a: ContentItem, b: ContentItem): (r: bool)
    ensures r <==> a == b
  {
    a.cid == b.cid && a.size == b.size && a.header == b.header && a.content == b.content
  }

  /** Sum of the character codes of a string, accumulated from left to right. */
  function OrdSum(s: string): nat
  {
    if s == [] then 0 else OrdSum(s[..|s| - 1]) + s[|s| - 1] as int
  }

  /** Segment class of a header: the running character-code sum, kept reduced modulo 3. */
  function ClassifyHeader(header: string): (k: nat)
    ensures k < 3
  {
    if header == [] then 0
    else (ClassifyHeader(header[..|header| - 1]) + header[|header| - 1] as int) % 3
  }

  /** The class of a header is the sum of its character codes modulo 3. */
  lemma {:induction false} ClassifyHeaderIsOrdSumMod3(header: string)
    ensures ClassifyHeader(header) == OrdSum(header) % 3
  {
    if header != [] {
      var init := header[..|header| - 1];
      ClassifyHeaderIsOrdSumMod3(init);
      var c := header[|header| - 1] as int;
      assert OrdSum(header) == OrdSum(init) + c;
      assert (OrdSum(init) % 3 + c) % 3 == (OrdSum(init) + c) % 3;
    }
  }

  /** The segment an item belongs to; it depends on the header only. */
  function Classify(item: ContentItem): (k: nat)
    ensures k < 3
    ensures k == OrdSum(item.header) % 3
  {
    ClassifyHeaderIsOrdSumMod3(item.header);
    ClassifyHeader(item.header)
  }

  /** Items that are equal (all four fields) land in the same segment, and so do any two
      items with the same header, whatever their other fields. */
  lemma ClassifyDependsOnHeaderOnly(a: ContentItem, b: ContentItem)
    requires a.header == b.header
    ensures Classify(a) == Classify(b)
  {
  }

  /** The accumulator loop that computes an item's hash. */
  method Hash(item: ContentItem) returns (h: nat)
    ensures h == Classify(item)
  {
    var totalSum := 0;
    for i := 0 to |item.header|
      invariant totalSum == OrdSum(item.header[..i])
    {
      assert item.header[..i + 1][..i] == item.header[..i];
      totalSum := totalSum + item.header[i] as int;
    }
    assert item.header[..|item.header|] == item.header;
    h := totalSum % 3;
  }

  /** Sum of the character codes of the first n characters of s; it lets the verifier
      compute the sums of literal headers one character at a time. */
  function PrefixOrdSum(s: string, n: nat): nat
    requires n <= |s|
  {
    if n == 0 then 0 else PrefixOrdSum(s, n - 1) + s[n - 1] as int
  }

  lemma {:induction false} PrefixOrdSumIsOrdSum(s: string, n: nat)
    requires n <= |s|
    ensures OrdSum(s[..n]) == PrefixOrdSum(s, n)
  {
    if n > 0 {
      assert s[..n][..n - 1] == s[..n - 1];
      PrefixOrdSumIsOrdSum(s, n - 1);
    }
  }

  lemma ContentTypeOrdSum()
    ensures OrdSum("Content-Type: ") == 1284
  {
    var s := "Content-Type: ";
    assert PrefixOrdSum(s, 1) == 67;
    assert PrefixOrdSum(s, 2) == 178;
    assert PrefixOrdSum(s, 3) == 288;
    assert PrefixOrdSum(s, 4) == 404;
    assert PrefixOrdSum(s, 5) == 505;
    assert PrefixOrdSum(s, 6) == 615;
    assert PrefixOrdSum(s, 7) == 731;
    assert PrefixOrdSum(s, 8) == 776;
    assert PrefixOrdSum(s, 9) == 860;
    assert PrefixOrdSum(s, 10) == 981;
    assert PrefixOrdSum(s, 11) == 1093;
    assert PrefixOrdSum(s, 12) == 1194;
    assert PrefixOrdSum(s, 13) == 1252;
    assert PrefixOrdSum(s, 14) == 1284;
    PrefixOrdSumIsOrdSum(s, |s|);
    assert s[..|s|] == s;
  }

  lemma AnotherHeaderOrdSum()
    ensures OrdSum("another header") == 1402
  {
    var s := "another header";
    assert PrefixOrdSum(s, 1) == 97;
    assert PrefixOrdSum(s, 2) == 207;
    assert PrefixOrdSum(s, 3) == 318;
    assert PrefixOrdSum(s, 4) == 434;
    assert PrefixOrdSum(s, 5) == 538;
    assert PrefixOrdSum(s, 6) == 639;
    assert PrefixOrdSum(s, 7) == 753;
    assert PrefixOrdSum(s, 8) == 785;
    assert PrefixOrdSum(s, 9) == 889;
    assert PrefixOrdSum(s, 10) == 990;
    assert PrefixOrdSum(s, 11) == 1087;
    assert PrefixOrdSum(s, 12) == 1187;
    assert PrefixOrdSum(s, 13) == 1288;
    assert PrefixOrdSum(s, 14) == 1402;
    PrefixOrdSumIsOrdSum(s, |s|);
    assert s[..|s|] == s;
  }

  /** The four headers of the item documentation land in segments 0, 1, 2 and 1. */
  lemma ClassifyExamples()
    ensures Classify(ContentItem(1000, 10, "Content-Type: 0", "0xA")) == 0
    ensures Classify(ContentItem(1004, 50, "Content-Type: 1", "110010")) == 1
    ensures Classify(ContentItem(1005, 18, "Content-Type: 2", "<html><p>'CMPSC132'</p></html>")) == 2
    ensures Classify(ContentItem(1005, 18, "another header", "111110")) == 1
  {
    ContentTypeOrdSum();
    AnotherHeaderOrdSum();
    assert "Content-Type: 0"[..14] == "Content-Type: ";
    assert "Content-Type: 1"[..14] == "Content-Type: ";
    assert "Content-Type: 2"[..14] == "Content-Type: ";
  }
}
