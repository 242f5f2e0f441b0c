/** The domain splitter `seperateDomain` (main.ts): the last two dot-separated
    labels of a name are its registrable domain, the labels before them its
    subdomain. No public-suffix list is consulted, so `a.co.uk` splits into
    `co.uk` and `a`. */
module Domain {
  import opened SplitJoin

  const Dot: char := '.'

  /** The two halves of a split name, named as in the source's returned object. */
  datatype DomainParts = DomainParts(domain: string, subDomain: string)

  /** The dot-separated labels of a name. */
  function Labels(full: string): seq<string>
  {
    Split(full, Dot)
  }

  /** How many dots a string contains. */
  function DotCount(s: string): nat
  {
    multiset(s)[Dot]
  }

  /** The first label is empty exactly when the name is empty or starts with a
      dot. */
  lemma {:induction false} FirstLabelEmpty(full: string)
    ensures Labels(full)[0] == [] <==> full == [] || full[0] == Dot
  {
    if full != [] {
      SplitFromFirst(full, Dot, []);
      if full[0] != Dot {
        assert [] + [full[0]] == [full[0]];
        assert Labels(full) == SplitFrom(full[1..], Dot, [full[0]]);
        SplitFromFirst(full[1..], Dot, [full[0]]);
      }
    }
  }

  /** The position `Array.prototype.splice` starts removing at when called with
      `start` on an array of length `length`: a negative start counts back from
      the end and stops at the front, a start past the end stops at the end. */
  function SpliceStart(length: nat, start: int): (k: nat)
    ensures k <= length
  {
    if start < 0 then (if length + start < 0 then 0 else length + start)
    else if start < length then start
    else length
  }

  /** `seperateDomain(full)`: `parts.splice(parts.length - 2)` removes the last
      two labels (or the only one) and joins them as the domain; the labels left
      in `parts` are joined as the subdomain. */
  function SeparateDomain(full: string): DomainParts
  {
    var parts := Labels(full);
    var k := SpliceStart(|parts|, |parts| - 2);
    DomainParts(Join(parts[k..], Dot), Join(parts[..k], Dot))
  }

  /** With two or more labels the domain is the last two labels around a dot
      and the subdomain is the rest joined by dots, empty for exactly two. */
  lemma SeparateDomainLabels(full: string)
    ensures var parts := Labels(full); var n := |parts|; var r := SeparateDomain(full);
      n >= 2 ==>
        && r.domain == parts[n - 2] + [Dot] + parts[n - 1]
        && r.subDomain == Join(parts[..n - 2], Dot)
        && (n == 2 ==> r.subDomain == [])
  {
    var parts := Labels(full);
    var n := |parts|;
    if n >= 2 {
      var last := parts[n - 2..];
      assert last == [parts[n - 2], parts[n - 1]];
      assert last[1..] == [parts[n - 1]];
      assert Join(last, Dot) == last[0] + [Dot] + Join(last[1..], Dot);
    }
  }

  /** A name with at most one dot (the empty name included) is all domain and no
      subdomain; a name with two or more dots is not. */
  lemma {:induction false} SeparateDomainShort(full: string)
    ensures SeparateDomain(full) == DomainParts(full, []) <==> DotCount(full) <= 1
  {
    SplitCount(full, Dot);
    var parts := Labels(full);
    if DotCount(full) <= 1 {
      assert SpliceStart(|parts|, |parts| - 2) == 0;
      assert parts[0..] == parts && parts[..0] == [];
      JoinOfSplit(full, Dot);
    } else {
      SeparateDomainDots(full);
      assert DotCount(SeparateDomain(full).domain) != DotCount(full);
    }
  }

  /** With two or more dots, subdomain, a dot and domain spell the name again. */
  lemma {:induction false} SeparateDomainRoundTrip(full: string)
    requires DotCount(full) >= 2
    ensures SeparateDomain(full).subDomain + [Dot] + SeparateDomain(full).domain == full
  {
    SplitCount(full, Dot);
    var parts := Labels(full);
    var k := |parts| - 2;
    assert parts[..k] + parts[k..] == parts;
    JoinAppend(parts[..k], parts[k..], Dot);
    JoinOfSplit(full, Dot);
  }

  /** The domain never holds more than one dot, and holds one exactly when the
      name has one; every other dot of the name stays in the subdomain. */
  lemma {:induction false} SeparateDomainDots(full: string)
    ensures DotCount(SeparateDomain(full).domain) == if DotCount(full) >= 1 then 1 else 0
    ensures DotCount(SeparateDomain(full).subDomain) == if DotCount(full) >= 2 then DotCount(full) - 2 else 0
  {
    SplitCount(full, Dot);
    var parts := Labels(full);
    var n := |parts|;
    var k := SpliceStart(n, n - 2);
    JoinSepCount(parts[k..], Dot);
    JoinSepCount(parts[..k], Dot);
  }

  /** Building a name from labels and splitting it again: the last two labels
      come back as the domain and the leading ones, joined, as the subdomain (so
      `host` + `example` + `com` gives `example.com` and `host`, and no leading
      labels give an empty subdomain). */
  lemma {:induction false} SeparateJoinedLabels(leading: seq<string>, second: string, last: string)
    requires SepFree(leading + [second, last], Dot)
    ensures SeparateDomain(Join(leading + [second, last], Dot))
      == DomainParts(second + [Dot] + last, Join(leading, Dot))
  {
    var parts := leading + [second, last];
    var full := Join(parts, Dot);
    SplitOfJoin(parts, Dot);
    SeparateDomainLabels(full);
    assert parts[..|parts| - 2] == leading;
  }
}
