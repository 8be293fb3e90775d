/** The string-prefix permission check and its relation to the segment matcher. */
module Permissions {
  import opened Text
  import opened Rbac

  predicate StartsWith(s: string, prefix: string) { prefix <= s }

  predicate EndsWith(s: string, suffix: string) {
    |suffix| <= |s| && s[|s| - |suffix|..] == suffix
  }

  /** One turn of the loop: does this stripped grant allow the stripped requirement? */
  predicate Allows(permission: string, required: string) {
    if permission == "" then false
    else if permission == "*" then true
    else if permission == required then true
    else EndsWith(permission, ":*") && StartsWith(required, permission[..|permission| - 1])
  }

  predicate AnyAllows(granted: seq<string>, required: string) {
    granted != [] && (Allows(Strip(granted[0]), required) || AnyAllows(granted[1..], required))
  }

  predicate HasPermission(granted: seq<string>, requiredPermission: string) {
    Strip(requiredPermission) != "" && AnyAllows(granted, Strip(requiredPermission))
  }

  // ----- In terms of segments -----

  /** The same decision on segment lists: all segments equal, or equal up to a final wildcard that is reached. */
  predicate AllowsSegments(p: seq<string>, t: seq<string>)
    requires |p| >= 1
  {
    p == ["*"] || p == t ||
    (|p| >= 2 && p[|p| - 1] == "*" && |p| <= |t| && p[..|p| - 1] == t[..|p| - 1])
  }

  lemma SplitInjective(a: string, b: string)
    ensures Split(a, ':') == Split(b, ':') ==> a == b
  {
    JoinSplit(a, ':');
    JoinSplit(b, ':');
  }

  /** A string starts with "a:" exactly when its segments properly extend those of a. */
  lemma PrefixSegments(a: string, s: string)
    ensures StartsWith(s, a + ":") <==>
              |Split(a, ':')| < |Split(s, ':')| &&
              Split(a, ':') == Split(s, ':')[..|Split(a, ':')|]
  {
    var A, S := Split(a, ':'), Split(s, ':');
    if StartsWith(s, a + ":") {
      var rest := s[|a| + 1..];
      assert s == a + ":" + rest;
      SplitConcat(a, rest, ':');
    }
    if |A| < |S| && A == S[..|A|] {
      JoinSplit(s, ':');
      JoinSplit(a, ':');
      assert S == A + S[|A|..];
      JoinConcat(A, S[|A|..], ":");
      assert s == a + ":" + Join(S[|A|..], ":");
    }
  }

  lemma TakeSuffix(s: string, sep: char, last: string)
    requires EndsWith(s, [sep] + last)
    ensures |last| < |s| && s == s[..|s| - |last| - 1] + [sep] + last
  {
    var suffix := [sep] + last;
    assert s == s[..|s| - |suffix|] + suffix;
  }

  lemma SplitLast(s: string, sep: char, last: string)
    requires sep !in last && EndsWith(s, [sep] + last)
    ensures Split(s, sep) == Split(s[..|s| - |last| - 1], sep) + [last]
  {
    TakeSuffix(s, sep, last);
    SplitConcat(s[..|s| - |last| - 1], last, sep);
    SplitNoSeparator(last, sep);
  }

  lemma SuffixJoins(init: seq<string>, sep: char, last: string)
    requires init != []
    ensures EndsWith(Join(init + [last], [sep]), [sep] + last)
  {
    JoinConcat(init, [last], [sep]);
    var s := Join(init + [last], [sep]);
    assert s == Join(init, [sep]) + ([sep] + last);
  }

  lemma EndsInLast(s: string, sep: char)
    requires |Split(s, sep)| >= 2
    ensures EndsWith(s, [sep] + Split(s, sep)[|Split(s, sep)| - 1])
  {
    var S := Split(s, sep);
    var init, last := S[..|S| - 1], S[|S| - 1];
    assert S == init + [last];
    SuffixJoins(init, sep, last);
    JoinSplit(s, sep);
  }

  /** A string ends with ":*" exactly when it has several segments and the last is the wildcard. */
  lemma WildcardSuffix(s: string)
    ensures EndsWith(s, ":*") <==> |Split(s, ':')| >= 2 && Split(s, ':')[|Split(s, ':')| - 1] == "*"
    ensures EndsWith(s, ":*") ==> Split(s[..|s| - 2], ':') == Split(s, ':')[..|Split(s, ':')| - 1]
  {
    if EndsWith(s, ":*") {
      SplitLast(s, ':', "*");
    } else if |Split(s, ':')| >= 2 && Split(s, ':')[|Split(s, ':')| - 1] == "*" {
      EndsInLast(s, ':');
    }
  }

  /** The character-level check is this segment-level check, for all strings. */
  lemma {:induction false} AllowsBySegments(permission: string, required: string)
    requires permission != ""
    ensures Allows(permission, required) <==> AllowsSegments(Split(permission, ':'), Split(required, ':'))
  {
    SplitStar();
    SplitInjective(permission, "*");
    SplitInjective(permission, required);
    WildcardSuffix(permission);
    if EndsWith(permission, ":*") {
      PrefixSegments(permission[..|permission| - 2], required);
      assert permission[..|permission| - 1] == permission[..|permission| - 2] + ":";
    }
  }

  lemma CoversSelf(p: string)
    ensures Covers(p, p)
  {
    if p != "*" {
      CoversBySegments(p, p);
      var P := Split(p, ':');
      forall k | 0 <= k < |P| ensures MatchesAt(P, P, k) {}
    }
  }

  lemma AllowsIsCovered(permission: string, required: string)
    requires Allows(permission, required)
    ensures Covers(permission, required)
  {
    AllowsBySegments(permission, required);
    if permission == required {
      CoversSelf(permission);
    } else if permission != "*" {
      CoversBySegments(permission, required);
      SplitInjective(permission, "*");
      SplitInjective(permission, required);
      SplitStar();
      var P, T := Split(permission, ':'), Split(required, ':');
      forall k | 0 <= k < |P|
        ensures MatchesAt(P, T, k)
      {
        if k < |P| - 1 { assert P[..|P| - 1][k] == T[..|P| - 1][k]; }
      }
    }
  }

  lemma {:induction false} AnyAllowsMeans(granted: seq<string>, required: string)
    ensures AnyAllows(granted, required) <==> exists i :: 0 <= i < |granted| && Allows(Strip(granted[i]), required)
  {
    if granted != [] {
      AnyAllowsMeans(granted[1..], required);
      if i :| 0 <= i < |granted| && Allows(Strip(granted[i]), required) {
        if i > 0 { assert granted[1..][i - 1] == granted[i]; }
      }
    }
  }

  /** Whatever has_permission allows, some stripped grant covers segment by segment. */
  lemma HasPermissionIsCovered(granted: seq<string>, required: string)
    requires HasPermission(granted, required)
    ensures exists i :: 0 <= i < |granted| && Covers(Strip(granted[i]), Strip(required))
  {
    AnyAllowsMeans(granted, Strip(required));
    var i :| 0 <= i < |granted| && Allows(Strip(granted[i]), Strip(required));
    AllowsIsCovered(Strip(granted[i]), Strip(required));
  }

  /** As deep as the pattern asks: at least as many segments before a trailing wildcard, else exactly as many. */
  predicate DeepEnough(p: seq<string>, t: seq<string>)
    requires p != []
  {
    if p[|p| - 1] == "*" then |t| >= |p| else |t| == |p|
  }

  /**
   * A covering pattern is also allowed exactly when the requirement is as deep as
   * the pattern asks and itself has a wildcard wherever the pattern has one before
   * its last segment. For a requirement without wildcards: exactly when the pattern
   * has none before its last segment.
   */
  lemma AgreesWithCovers(permission: string, required: string)
    requires permission != "" && permission != "*"
    requires Covers(permission, required)
    ensures var P, T := Split(permission, ':'), Split(required, ':');
            && (Allows(permission, required) <==>
                  DeepEnough(P, T) && forall k :: 0 <= k < |P| - 1 && P[k] == "*" ==> k < |T| && T[k] == "*")
            && ("*" !in T ==> (Allows(permission, required) <==> DeepEnough(P, T) && "*" !in P[..|P| - 1]))
  {
    AllowsBySegments(permission, required);
    CoversBySegments(permission, required);
    SplitInjective(permission, "*");
    SplitStar();
    SegmentsAgree(Split(permission, ':'), Split(required, ':'));
  }

  lemma SegmentsAgree(p: seq<string>, t: seq<string>)
    requires p != [] && p != ["*"] && MatchesFrom(p, t, 0)
    ensures AllowsSegments(p, t) <==>
              DeepEnough(p, t) && forall k :: 0 <= k < |p| - 1 && p[k] == "*" ==> k < |t| && t[k] == "*"
    ensures "*" !in t ==> (AllowsSegments(p, t) <==> DeepEnough(p, t) && "*" !in p[..|p| - 1])
  {
    var n := |p| - 1;
    SamePrefix(p, t);
    assert p == p[..n] + [p[n]];
    if |t| == |p| {
      assert t == t[..n] + [t[n]];
      assert MatchesAt(p, t, n);
    }
  }

  lemma SamePrefix(p: seq<string>, t: seq<string>)
    requires p != [] && MatchesFrom(p, t, 0)
    ensures p[..|p| - 1] <= t <==> forall k :: 0 <= k < |p| - 1 && p[k] == "*" ==> k < |t| && t[k] == "*"
    ensures "*" !in t ==> (p[..|p| - 1] <= t <==> "*" !in p[..|p| - 1])
  {
    var n := |p| - 1;
    forall k | 0 <= k < n ensures k < |t| && (p[k] == "*" || p[k] == t[k]) { assert MatchesAt(p, t, k); }
    assert n <= |t| by { if n > 0 { assert MatchesAt(p, t, n - 1); } }
    assert forall k :: 0 <= k < n ==> p[..n][k] == p[k];
    assert p[..n] <= t <==> forall k :: 0 <= k < n ==> p[..n][k] == t[k];
  }
}
