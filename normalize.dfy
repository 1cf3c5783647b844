/**
 * The endpoint normaliser of model/service.go: `cleanEndpoint`,
 * `cleanEndpoints`, `contains`, and the key under which a route is filed.
 */
module Normalize {
  import opened Text

  const VirtualTopic: string := "VirtualTopic"

  /** `%7B` becomes `{`, then `%7D` becomes `}`. */
  function DecodeBraces(s: string): string {
    ReplaceAll(ReplaceAll(s, "%7B", "{"), "%7D", "}")
  }

  /** The three rewrites that precede query stripping: braces, `://`, `activemq:`. */
  function Rewrite(s: string): string {
    ReplaceAll(ReplaceAll(DecodeBraces(s), "://", ":"), "activemq:", "jms:")
  }

  /** `strings.Split(s, "?")[0]`: everything before the first `?`. */
  function StripQuery(s: string): (r: string)
    ensures '?' !in r && HasPrefix(s, r)
    ensures |r| < |s| ==> s[|r|] == '?'
  {
    var r := Before(s, "?");
    ContainsChar(r, '?');
    assert |r| < |s| ==> s[|r|..][..1] == "?";
    r
  }

  /**
   * An endpoint mentioning `VirtualTopic` keeps `VirtualTopic` followed by the
   * text between its first and its second occurrence (`Split(s, "VirtualTopic")[1]`).
   */
  function FoldVirtualTopic(s: string): (r: string)
    ensures !Contains(s, VirtualTopic) ==> r == s
    ensures Contains(s, VirtualTopic) ==>
      HasPrefix(r, VirtualTopic) && !Contains(r[|VirtualTopic|..], VirtualTopic)
      && HasPrefix(After(s, VirtualTopic), r[|VirtualTopic|..])
      && (var t, topic := After(s, VirtualTopic), r[|VirtualTopic|..];
          |topic| == |t| || HasPrefix(t[|topic|..], VirtualTopic))
  {
    if Contains(s, VirtualTopic) then
      var topic := Before(After(s, VirtualTopic), VirtualTopic);
      assert (VirtualTopic + topic)[|VirtualTopic|..] == topic;
      VirtualTopic + topic
    else s
  }

  /** Local `direct` and `timer` endpoints are qualified by the service name. */
  function PrefixService(service: string, s: string): (r: string)
    ensures !HasPrefix(s, "direct") && !HasPrefix(s, "timer") ==> r == s
    ensures HasPrefix(s, "direct") || HasPrefix(s, "timer") ==>
      HasPrefix(r, service + ":") && |s| < |r| && r[|r| - |s|..] == s
  {
    var d := if HasPrefix(s, "direct") then service + ":" + s else s;
    if HasPrefix(d, "timer") then service + ":" + d else d
  }

  /**
   * Outside the one double-prefix case (`PrefixServiceTwice`), a `direct` or
   * `timer` endpoint is prefixed exactly once.
   */
  lemma PrefixServiceOnce(service: string, s: string)
    requires HasPrefix(s, "direct") || HasPrefix(s, "timer")
    requires HasPrefix(s, "direct") ==> !HasPrefix(service + ":" + s, "timer")
    ensures PrefixService(service, s) == service + ":" + s
  {
  }

  /** `cleanEndpoint(route, endpoint)`, for a route of the service named `service`. */
  function CleanEndpoint(service: string, endpoint: string): (r: string)
    ensures '?' !in service ==> '?' !in r
  {
    var stripped := StripQuery(Rewrite(endpoint));
    FoldKeepsOut(stripped, '?');
    PrefixService(service, FoldVirtualTopic(stripped))
  }

  /** Folding only keeps characters of its input and of `VirtualTopic`. */
  lemma FoldKeepsOut(s: string, c: char)
    requires c !in s && c !in VirtualTopic
    ensures c !in FoldVirtualTopic(s)
  {
    if Contains(s, VirtualTopic) {
      var b, t := Before(s, VirtualTopic), After(s, VirtualTopic);
      assert s == b + VirtualTopic + t;
      var topic := Before(t, VirtualTopic);
      assert topic == t[..|topic|];
      assert c !in topic;
      assert FoldVirtualTopic(s) == VirtualTopic + topic;
    }
  }

  // ---------------------------------------------------------------------------
  // What each rewrite guarantees

  /** After decoding, neither `%7B` nor `%7D` is left. */
  lemma DecodeBracesComplete(s: string)
    ensures !Contains(DecodeBraces(s), "%7B") && !Contains(DecodeBraces(s), "%7D")
  {
    var once := ReplaceAll(s, "%7B", "{");
    ClearByFirstChar("%7B", "{");
    ClearByFirstChar("%7B", "}");
    ClearByFirstChar("%7D", "}");
    ReplaceAllRemoves(s, "%7B", "{");
    ReplaceAllKeepsOut(once, "%7D", "}", "%7B");
    ReplaceAllRemoves(once, "%7D", "}");
  }

  /** Decoding changes nothing else: text without the two escapes is kept as it is. */
  lemma DecodeBracesPlain(s: string)
    requires !Contains(s, "%7B") && !Contains(s, "%7D")
    ensures DecodeBraces(s) == s
  {
    ReplaceAllUnchanged(s, "%7B", "{");
    ReplaceAllUnchanged(s, "%7D", "}");
  }

  /** No `activemq:` survives: the legacy scheme is always renamed to `jms:`. */
  lemma RewriteRenamesActivemq(s: string)
    ensures !Contains(Rewrite(s), "activemq:")
  {
    ClearByFirstChar("activemq:", "jms:");
    ReplaceAllRemoves(ReplaceAll(DecodeBraces(s), "://", ":"), "activemq:", "jms:");
  }

  /**
   * `://` is replaced in a single left-to-right pass, so a run of slashes can
   * leave one behind: cleaning is not idempotent.
   */
  lemma CleanEndpointNotIdempotent()
    ensures CleanEndpoint("svc", "a:////b") == "a://b"
    ensures CleanEndpoint("svc", "a://b") == "a:b"
  {
    RewriteSlashRun();
    CleanPlain("svc", "a://b");
    CleanPlain("svc", "a:b");
  }

  lemma RewriteSlashRun()
    ensures Rewrite("a:////b") == "a://b" && Rewrite("a://b") == "a:b"
  {
    assert ReplaceAll("/b", "://", ":") == "/b";
    assert ReplaceAll("//b", "://", ":") == "//b";
    assert ReplaceAll(":////b", "://", ":") == "://b";
    assert ReplaceAll("a:////b", "://", ":") == "a://b";
    RewritePlainScheme("a:////b", "a://b");
    assert ReplaceAll("b", "://", ":") == "b";
    assert ReplaceAll("://b", "://", ":") == ":b";
    assert ReplaceAll("a://b", "://", ":") == "a:b";
    RewritePlainScheme("a://b", "a:b");
  }

  /** Without `%` or `activemq:`, only the `://` rewrite can apply. */
  lemma RewritePlainScheme(e: string, t: string)
    requires '%' !in e && t == ReplaceAll(e, "://", ":") && |t| < |"activemq:"|
    ensures Rewrite(e) == t
  {
    AbsentFirstChar(e, "%7B");
    AbsentFirstChar(e, "%7D");
    DecodeBracesPlain(e);
    ShortUnchanged(t, "activemq:", "jms:");
  }

  /** The tail of the chain leaves a short, query-free, non-local endpoint alone. */
  lemma CleanPlain(service: string, t: string)
    requires '?' !in t && |t| < |VirtualTopic|
    requires |t| > 0 && t[0] != 'd' && t[0] != 't'
    ensures PrefixService(service, FoldVirtualTopic(StripQuery(t))) == t
  {
    assert !HasPrefix(t, "direct") && !HasPrefix(t, "timer") by {
      if |t| >= 5 {
        assert t[..5][0] == t[0];
      }
      if |t| >= 6 {
        assert t[..6][0] == t[0];
      }
    }
    BeforeAbsent(t, '?');
    NotContainsShort(t, VirtualTopic);
  }

  /**
   * Whatever broker prefix precedes `VirtualTopic` is dropped: the cleaned
   * endpoint is `VirtualTopic` followed by the topic name.
   */
  lemma FoldVirtualTopicDropsBroker(broker: string, topic: string)
    requires 'V' !in broker && !Contains(topic, VirtualTopic)
    ensures FoldVirtualTopic(broker + VirtualTopic + topic) == VirtualTopic + topic
  {
    BeforeFirstChar(broker, VirtualTopic, topic);
  }

  /** Two endpoints that differ only in their query string are cleaned to the same text. */
  lemma {:induction false} CleanEndpointIgnoresQuery(service: string, a: string, query: string)
    requires '?' !in a
    ensures CleanEndpoint(service, a + "?" + query) == CleanEndpoint(service, a)
  {
    RewriteAround(a, '?', query);
    RewriteChars(a, '?');
    BeforeSeparator(Rewrite(a), '?', Rewrite(query));
    BeforeAbsent(Rewrite(a), '?');
  }

  /** The rewrites never touch a character that none of their patterns contain. */
  lemma RewriteAround(a: string, c: char, b: string)
    requires c !in "%7B" && c !in "%7D" && c !in "://" && c !in "activemq:"
    ensures Rewrite(a + [c] + b) == Rewrite(a) + [c] + Rewrite(b)
  {
    ReplaceAllAround(a, c, b, "%7B", "{");
    var a1, b1 := ReplaceAll(a, "%7B", "{"), ReplaceAll(b, "%7B", "{");
    ReplaceAllAround(a1, c, b1, "%7D", "}");
    var a2, b2 := ReplaceAll(a1, "%7D", "}"), ReplaceAll(b1, "%7D", "}");
    ReplaceAllAround(a2, c, b2, "://", ":");
    var a3, b3 := ReplaceAll(a2, "://", ":"), ReplaceAll(b2, "://", ":");
    ReplaceAllAround(a3, c, b3, "activemq:", "jms:");
  }

  /** The rewrites introduce no character outside `{}:jms`. */
  lemma RewriteChars(s: string, c: char)
    requires c !in s && c !in "{}:jms"
    ensures c !in Rewrite(s)
  {
    ReplaceAllChars(s, "%7B", "{", c);
    var s1 := ReplaceAll(s, "%7B", "{");
    ReplaceAllChars(s1, "%7D", "}", c);
    var s2 := ReplaceAll(s1, "%7D", "}");
    ReplaceAllChars(s2, "://", ":", c);
    var s3 := ReplaceAll(s2, "://", ":");
    ReplaceAllChars(s3, "activemq:", "jms:", c);
  }

  /**
   * The two prefix checks run one after the other, so a service whose name
   * starts with `timer` gets its name twice on a `direct` endpoint.
   */
  lemma PrefixServiceTwice()
    ensures PrefixService("timers", "direct:a") == "timers:timers:direct:a"
  {
  }

  // ---------------------------------------------------------------------------
  // Lists of endpoints

  /** `cleanEndpoints`: every uri cleaned, in order. */
  method CleanEndpoints(service: string, uris: seq<string>) returns (cleaned: seq<string>)
    ensures |cleaned| == |uris|
    ensures forall i :: 0 <= i < |uris| ==> cleaned[i] == CleanEndpoint(service, uris[i])
  {
    cleaned := [];
    for i := 0 to |uris|
      invariant |cleaned| == i
      invariant forall j :: 0 <= j < i ==> cleaned[j] == CleanEndpoint(service, uris[j])
    {
      cleaned := cleaned + [CleanEndpoint(service, uris[i])];
    }
  }

  /** `contains`: a linear scan; an empty list holds nothing. */
  method ContainsEntry(list: seq<string>, entry: string) returns (found: bool)
    ensures found <==> entry in list
  {
    if |list| == 0 {
      return false;
    }
    for i := 0 to |list|
      invariant entry !in list[..i]
    {
      if list[i] == entry {
        return true;
      }
    }
    return false;
  }

  /**
   * The guard meant to skip unfilled `{{...}}` outputs: an empty uri cannot
   * contain `{{`, so it never fires.
   */
  function SkipsUnfilledOutput(uri: string): (skip: bool)
    ensures !skip
  {
    |uri| == 0 && Contains(uri, "{{")
  }

  predicate Distinct(list: seq<string>) {
    forall i, j :: 0 <= i < j < |list| ==> list[i] != list[j]
  }

  /**
   * `list` after appending, one at a time, each candidate that `contains`
   * does not already find in it.
   */
  function AppendNew(list: seq<string>, candidates: seq<string>): (r: seq<string>)
    ensures |list| <= |r| && r[..|list|] == list
    ensures forall x :: x in r <==> x in list || x in candidates
    decreases |candidates|
  {
    if candidates == [] then list
    else
      var prev := AppendNew(list, candidates[..|candidates| - 1]);
      var c := candidates[|candidates| - 1];
      assert forall x :: x in candidates <==> x in candidates[..|candidates| - 1] || x == c by {
        assert candidates == candidates[..|candidates| - 1] + [c];
      }
      if c in prev then prev else prev + [c]
  }

  /** Appending only absent candidates never creates a duplicate. */
  lemma {:induction false} AppendNewDistinct(list: seq<string>, candidates: seq<string>)
    requires Distinct(list)
    ensures Distinct(AppendNew(list, candidates))
    decreases |candidates|
  {
    if candidates != [] {
      AppendNewDistinct(list, candidates[..|candidates| - 1]);
    }
  }

  /** Candidates arriving in two batches end up as if they had arrived in one. */
  lemma {:induction false} AppendNewConcat(list: seq<string>, xs: seq<string>, ys: seq<string>)
    ensures AppendNew(list, xs + ys) == AppendNew(AppendNew(list, xs), ys)
    decreases |ys|
  {
    if ys == [] {
      assert xs + ys == xs;
    } else {
      assert (xs + ys)[..|xs + ys| - 1] == xs + ys[..|ys| - 1];
      AppendNewConcat(list, xs, ys[..|ys| - 1]);
    }
  }

  /** Candidates all present already change nothing. */
  lemma {:induction false} AppendNewPresent(list: seq<string>, candidates: seq<string>)
    requires forall x :: x in candidates ==> x in list
    ensures AppendNew(list, candidates) == list
    decreases |candidates|
  {
    if candidates != [] {
      AppendNewPresent(list, candidates[..|candidates| - 1]);
    }
  }

  /** Merging the same candidates a second time changes nothing. */
  lemma AppendNewIdempotent(list: seq<string>, candidates: seq<string>)
    ensures AppendNew(AppendNew(list, candidates), candidates) == AppendNew(list, candidates)
  {
    AppendNewPresent(AppendNew(list, candidates), candidates);
  }

  // ---------------------------------------------------------------------------
  // Route keys

  /** `<context>.<routeId>` with every space turned into `_`. */
  function RouteKey(context: string, routeId: string): string {
    ReplaceAll(context, " ", "_") + "." + ReplaceAll(routeId, " ", "_")
  }

  /** A route key never holds a space. */
  lemma RouteKeyHasNoSpace(context: string, routeId: string)
    ensures ' ' !in RouteKey(context, routeId)
  {
    ClearByFirstChar(" ", "_");
    ReplaceAllRemoves(context, " ", "_");
    ReplaceAllRemoves(routeId, " ", "_");
    ContainsChar(ReplaceAll(context, " ", "_"), ' ');
    ContainsChar(ReplaceAll(routeId, " ", "_"), ' ');
  }

  /** Route ids that differ only by space versus `_` share a key, so they share one route. */
  lemma RouteKeyConflatesSpaces()
    ensures RouteKey("ctx", "a b") == RouteKey("ctx", "a_b")
  {
    assert ReplaceAll("b", " ", "_") == "b";
    assert ReplaceAll(" b", " ", "_") == "_b";
    assert ReplaceAll("_b", " ", "_") == "_b";
  }
}
