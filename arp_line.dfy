/**
 * Extraction of the IP address from the line `arp -an` prints for a host,
 * e.g. `? (192.168.4.7) at aa:bb:cc:dd:ee:ff on en0 ifscope [ethernet]`:
 * the text from just after the first '(' up to the first ')', computed with
 * JavaScript's `indexOf` and `substring`.
 */
module ArpLine {
  import opened JsStrings

  /** `data.substring(data.indexOf('(') + 1, data.indexOf(')'))` */
  function ExtractIp(data: string): string {
    Substring(data, IndexOf(data, '(') + 1, IndexOf(data, ')'))
  }

  /**
   * Besides the intended case, the extraction is pinned down on a line
   * without parentheses or with them out of order, where `substring`'s
   * clamping and swapping take over.
   */
  lemma ExtractIpCases(data: string)
    ensures var r, i, j := ExtractIp(data), IndexOf(data, '('), IndexOf(data, ')');
      && (i < j ==> r == data[i + 1..j])
      && (0 <= j < i ==> r == data[j..i + 1])
      && (j == -1 < i ==> r == data[..i + 1])
      && (i == j ==> r == [])
  {
  }

  /** On a well-formed ARP entry the extraction returns exactly the text
      between the parentheses. */
  lemma ExtractFromEntry(before: string, ip: string, after: string)
    requires '(' !in before && ')' !in before && ')' !in ip
    ensures ExtractIp(before + "(" + ip + ")" + after) == ip
  {
    var line := before + "(" + ip + ")" + after;
    var open, close := |before|, |before| + 1 + |ip|;
    assert line[..open] == before;
    IndexOfIs(line, '(', open);
    assert line[..close] == before + "(" + ip;
    IndexOfIs(line, ')', close);
    assert line[open + 1..close] == ip;
  }

  /** With no '(' in the line, everything before the first ')' is taken. */
  lemma ExtractWithoutOpen(data: string)
    requires '(' !in data
    ensures var j := IndexOf(data, ')'); ')' in data ==> 0 <= j && ExtractIp(data) == data[..j]
    ensures ')' !in data ==> ExtractIp(data) == []
  {
    IndexOfSpec(data, '(');
    IndexOfSpec(data, ')');
  }
}
