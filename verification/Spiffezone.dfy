/** The zone named by a SPIFFE ID path: /zone/<zone>/... (internal/spiffezone). */
module Spiffezone {
  import opened Wrappers
  import opened Text

  function FromPath(path: string): Option<string> {
    var segs := Split(TrimPrefixChar(path, '/'), '/');
    if |segs| < 2 || segs[0] != "zone" || segs[1] == "" then None else Some(segs[1])
  }

  /** What such a path looks like, without splitting: an optional slash, "zone/", the zone, then the end or a slash. */
  ghost predicate NamesZone(path: string, zone: string) {
    && zone != "" && '/' !in zone
    && exists rest :: PathWith(path, zone, rest)
  }

  predicate PathWith(path: string, zone: string, rest: string) {
    && (path == "/zone/" + zone + rest || path == "zone/" + zone + rest)
    && (rest == "" || rest[0] == '/')
  }

  /** The split finds a zone exactly in the paths of that shape. */
  lemma FromPathIff(path: string, zone: string)
    ensures FromPath(path) == Some(zone) <==> NamesZone(path, zone)
  {
    if FromPath(path) == Some(zone) {
      ZoneFound(path, zone);
    }
    if NamesZone(path, zone) {
      var rest :| PathWith(path, zone, rest);
      assert TrimPrefixChar(path, '/') == "zone/" + zone + rest;
      SplitShape(zone, rest);
    }
  }

  lemma ZoneFound(path: string, zone: string)
    requires FromPath(path) == Some(zone)
    ensures NamesZone(path, zone)
  {
    var s := TrimPrefixChar(path, '/');
    SplitFirst(s, '/');
    var b := s[5..];
    assert Split(b, '/')[0] == zone;
    SplitFirst(b, '/');
    var rest := b[|zone|..];
    assert s == "zone/" + zone + rest;
    PathShape(path, zone, rest);
  }

  lemma PathShape(path: string, zone: string, rest: string)
    requires TrimPrefixChar(path, '/') == "zone/" + zone + rest && (rest == "" || rest[0] == '/')
    ensures PathWith(path, zone, rest)
  {
    var s := "zone/" + zone + rest;
    assert path == s || path == "/" + s;
    assert "/" + s == "/zone/" + zone + rest;
  }

  lemma SplitShape(zone: string, rest: string)
    requires '/' !in zone && (rest == "" || rest[0] == '/')
    ensures var segs := Split("zone/" + zone + rest, '/');
      |segs| >= 2 && segs[0] == "zone" && segs[1] == zone
  {
    assert "zone/" + zone + rest == "zone" + ['/'] + (zone + rest);
    SplitStep("zone", '/', zone + rest);
    if rest == "" {
      assert zone + rest == zone;
      SplitAtom(zone, '/');
    } else {
      assert zone + rest == zone + ['/'] + rest[1..];
      SplitStep(zone, '/', rest[1..]);
    }
  }
}
