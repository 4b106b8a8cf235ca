/**
 * The loaders' `clean_datetime`: string surgery that turns an ISO-like
 * timestamp ("2024-01-02T03:04:05.123Z") into "2024-01-02 03:04:05".
 *
 * Two variants exist. delta_loader.py and test_single_file.py strip every
 * trailing `Z` (`rstrip("Z")`); PG_initial_loader.py and initial_loader.py
 * strip at most one. Both return `None` for a missing or empty input and cut
 * the text at the first `.`.
 */
module Timestamps {
  import opened Optional

  /** `s.replace("T", " ")`. */
  function ReplaceT(s: string): (r: string)
    ensures |r| == |s|
    ensures forall i :: 0 <= i < |s| ==> r[i] == (if s[i] == 'T' then ' ' else s[i])
  {
    if s == [] then [] else (if s[0] == 'T' then " " else [s[0]]) + ReplaceT(s[1..])
  }

  /** `s.rstrip("Z")`: drops the longest all-`Z` suffix. */
  function RStripZ(s: string): (r: string)
    ensures |r| <= |s| && r == s[..|r|]
    ensures forall i :: |r| <= i < |s| ==> s[i] == 'Z'
    ensures r == [] || r[|r| - 1] != 'Z'
  {
    if s != [] && s[|s| - 1] == 'Z' then RStripZ(s[..|s| - 1]) else s
  }

  /** `if s.endswith("Z"): s = s[:-1]`. */
  function StripOneZ(s: string): string {
    if s != [] && s[|s| - 1] == 'Z' then s[..|s| - 1] else s
  }

  /** `s.split(".")[0]`: the text before the first `.`, or all of `s`. */
  function FirstDotField(s: string): (r: string)
    ensures |r| <= |s| && r == s[..|r|]
    ensures '.' !in r
    ensures |r| < |s| ==> s[|r|] == '.'
  {
    if s == [] || s[0] == '.' then [] else [s[0]] + FirstDotField(s[1..])
  }

  /** delta_loader.py / test_single_file.py `clean_datetime`. */
  function CleanDatetimeStripAll(dt: Option<string>): Option<string> {
    if dt.None? || dt.value == "" then None
    else
      var u := RStripZ(ReplaceT(dt.value));
      Some(if '.' in u then FirstDotField(u) else u)
  }

  /** PG_initial_loader.py / initial_loader.py `clean_datetime`. */
  function CleanDatetimeStripOne(dt: Option<string>): Option<string> {
    if dt.None? || dt.value == "" then None
    else
      var u := StripOneZ(ReplaceT(dt.value));
      Some(if '.' in u then FirstDotField(u) else u)
  }

  predicate NoSeparators(s: string) {
    'T' !in s && '.' !in s
  }

  /** The text before the first `.` of a dot-free string is the string itself. */
  lemma {:induction false} FirstDotFieldOfDotFree(s: string)
    requires '.' !in s
    ensures FirstDotField(s) == s
  {
    if s != [] {
      FirstDotFieldOfDotFree(s[1..]);
    }
  }

  /** `ReplaceT` distributes over concatenation. */
  lemma {:induction false} ReplaceTAppend(a: string, b: string)
    ensures ReplaceT(a + b) == ReplaceT(a) + ReplaceT(b)
  {
    var l, r := ReplaceT(a + b), ReplaceT(a) + ReplaceT(b);
    assert |l| == |r|;
    forall i | 0 <= i < |l| ensures l[i] == r[i] {
      if i < |a| { assert (a + b)[i] == a[i]; } else { assert (a + b)[i] == b[i - |a|]; }
    }
  }

  /**
   * delta_loader.py:75-79 — a missing or empty input gives `None`; any other
   * input gives text with every `T` replaced, all trailing `Z`s removed, cut at
   * the first `.`: a prefix of the `T`-replaced input holding no `T` and no `.`.
   */
  lemma {:induction false} StripAllShape(s: string)
    ensures CleanDatetimeStripAll(None) == None && CleanDatetimeStripAll(Some("")) == None
    ensures s != "" ==> CleanDatetimeStripAll(Some(s)).Some?
    ensures s != "" ==>
      var r := CleanDatetimeStripAll(Some(s)).value;
      var u := RStripZ(ReplaceT(s));
      && NoSeparators(r)
      && r == u[..|r|]
      && (r == u || u[|r|] == '.')
      && ('.' in u <==> |r| < |u|)
  {
    if s != "" {
      var u := RStripZ(ReplaceT(s));
      assert 'T' !in ReplaceT(s);
      assert forall i :: 0 <= i < |u| ==> u[i] == ReplaceT(s)[i];
      if '.' !in u { FirstDotFieldOfDotFree(u); }
    }
  }

  /**
   * PG_initial_loader.py:52-60 — the same shape, but only one trailing `Z` is
   * removed before the cut.
   */
  lemma {:induction false} StripOneShape(s: string)
    ensures CleanDatetimeStripOne(None) == None && CleanDatetimeStripOne(Some("")) == None
    ensures s != "" ==> CleanDatetimeStripOne(Some(s)).Some?
    ensures s != "" ==>
      var r := CleanDatetimeStripOne(Some(s)).value;
      var u := StripOneZ(ReplaceT(s));
      && NoSeparators(r)
      && r == u[..|r|]
      && (r == u || u[|r|] == '.')
      && ('.' in u <==> |r| < |u|)
  {
    if s != "" {
      var u := StripOneZ(ReplaceT(s));
      assert 'T' !in ReplaceT(s);
      assert forall i :: 0 <= i < |u| ==> u[i] == ReplaceT(s)[i];
      if '.' !in u { FirstDotFieldOfDotFree(u); }
    }
  }

  /**
   * Whenever the `T`-replaced input contains a `.`, both variants return
   * exactly the text before the first one: zone markers are only stripped from
   * the end, so they never reach back past that `.`.
   */
  lemma CutAtFirstDot(s: string, head: string, rest: string)
    requires ReplaceT(s) == head + "." + rest && '.' !in head
    ensures CleanDatetimeStripAll(Some(s)) == Some(head)
    ensures CleanDatetimeStripOne(Some(s)) == Some(head)
  {
    assert s != "" by { assert |ReplaceT(s)| > 0; }
    StripAllKeepsDot(head, rest);
    StripOneKeepsDot(head, rest);
  }

  lemma StripAllKeepsDot(head: string, rest: string)
    requires '.' !in head
    ensures var u := RStripZ(head + "." + rest); '.' in u && FirstDotField(u) == head
  {
    assert head + "." + rest == (head + ".") + rest;
    RStripZAfterNonZ(head + ".", rest);
    assert (head + ".") + RStripZ(rest) == head + ("." + RStripZ(rest));
    CutAtDot(head, "." + RStripZ(rest));
  }

  lemma StripOneKeepsDot(head: string, rest: string)
    requires '.' !in head
    ensures var u := StripOneZ(head + "." + rest); '.' in u && FirstDotField(u) == head
  {
    if rest != [] && rest[|rest| - 1] == 'Z' {
      assert StripOneZ(head + "." + rest) == head + ("." + rest[..|rest| - 1]);
      CutAtDot(head, "." + rest[..|rest| - 1]);
    } else {
      assert StripOneZ(head + "." + rest) == head + ("." + rest);
      CutAtDot(head, "." + rest);
    }
  }

  /**
   * The canonical form: a date, `T`, a time, a fraction and a zone marker
   * becomes "date time", in both variants.
   */
  lemma NormalisesIso(date: string, time: string, fraction: string)
    requires NoSeparators(date) && NoSeparators(time) && 'T' !in fraction
    ensures CleanDatetimeStripAll(Some(date + "T" + time + "." + fraction + "Z")) == Some(date + " " + time)
    ensures CleanDatetimeStripOne(Some(date + "T" + time + "." + fraction + "Z")) == Some(date + " " + time)
  {
    var s := date + "T" + time + "." + fraction + "Z";
    assert s == date + "T" + time + ("." + fraction + "Z");
    ReplaceIso(date, time, "." + fraction + "Z");
    assert ReplaceT(s) == (date + " " + time) + "." + (fraction + "Z");
    CutAtFirstDot(s, date + " " + time, fraction + "Z");
  }

  /** Only the `T` between date and time is replaced. */
  lemma ReplaceIso(date: string, time: string, tail: string)
    requires 'T' !in date && 'T' !in time && 'T' !in tail
    ensures ReplaceT(date + "T" + time + tail) == date + " " + time + tail
  {
    var s, t := date + "T" + time + tail, date + " " + time + tail;
    assert |s| == |t|;
    forall i | 0 <= i < |s| ensures ReplaceT(s)[i] == t[i] {
      if i < |date| {
        assert s[i] == date[i] == t[i];
      } else if i == |date| {
        assert s[i] == 'T';
      } else if i < |date| + 1 + |time| {
        assert s[i] == time[i - |date| - 1] == t[i];
      } else {
        assert s[i] == tail[i - |date| - 1 - |time|] == t[i];
      }
    }
  }

  /** Trailing `Z`s never reach back past a character that is not `Z`. */
  lemma {:induction false} RStripZAfterNonZ(p: string, q: string)
    requires p != [] && p[|p| - 1] != 'Z'
    ensures RStripZ(p + q) == p + RStripZ(q)
  {
    if q == [] {
      assert p + q == p;
    } else if q[|q| - 1] == 'Z' {
      assert (p + q)[..|p + q| - 1] == p + q[..|q| - 1];
      RStripZAfterNonZ(p, q[..|q| - 1]);
    }
  }

  /** A string without `T` is left alone by `ReplaceT`. */
  lemma {:induction false} NoTIsFixed(s: string)
    requires 'T' !in s
    ensures ReplaceT(s) == s
  {
    assert forall i :: 0 <= i < |s| ==> ReplaceT(s)[i] == s[i];
  }

  /** Cutting `head + rest` at its first `.` gives `head` when `rest` starts with `.`. */
  lemma CutAtDot(head: string, rest: string)
    requires '.' !in head
    requires rest != [] && rest[0] == '.'
    ensures '.' in head + rest && FirstDotField(head + rest) == head
  {
    var u := head + rest;
    assert u[|head|] == '.';
    assert forall i :: 0 <= i < |head| ==> u[i] == head[i] && u[i] != '.';
  }

  /** `n` copies of `Z`. */
  function ZRun(n: nat): (r: string)
    ensures |r| == n && forall i :: 0 <= i < n ==> r[i] == 'Z'
  {
    if n == 0 then [] else ZRun(n - 1) + "Z"
  }

  /**
   * Dropping trailing `Z`s from `u` down to a prefix `p` keeps every `.`,
   * so cutting at the first `.` gives the same text.
   */
  lemma CutIgnoresTrailingZ(u: string, p: string)
    requires |p| <= |u| && p == u[..|p|]
    requires forall i :: |p| <= i < |u| ==> u[i] == 'Z'
    ensures '.' in p <==> '.' in u
    ensures '.' in u ==> FirstDotField(p) == FirstDotField(u)
  {
    if '.' in u {
      var r := FirstDotField(u);
      assert u[|r|] == '.';
      assert |r| < |p|;
      assert p[|r|] == '.';
      assert p == r + p[|r|..];
      CutAtDot(r, p[|r|..]);
    }
    if '.' in p {
      var i :| 0 <= i < |p| && p[i] == '.';
      assert u[i] == '.';
    }
  }

  /**
   * `StripOneZ` keeps all but one of the trailing `Z`s that `RStripZ` drops.
   */
  lemma StripOneKeepsRun(u: string)
    ensures var k := |u| - |RStripZ(u)|;
      StripOneZ(u) == RStripZ(u) + ZRun(if k > 0 then k - 1 else 0)
  {
    var p := RStripZ(u);
    var k := |u| - |p|;
    if k > 0 {
      var z := ZRun(k - 1);
      assert StripOneZ(u) == u[..|u| - 1];
      assert u[..|u| - 1] == p + z by {
        forall i | 0 <= i < |u| - 1 ensures u[i] == (p + z)[i] {
          if i < |p| { assert u[i] == p[i]; }
        }
      }
    } else {
      assert p == u;
      if u != [] { assert u[|u| - 1] != 'Z'; }
    }
  }

  /** With a `.` in the `T`-replaced input, both variants cut at it. */
  lemma VariantsWithDot(s: string)
    requires '.' in ReplaceT(s)
    ensures CleanDatetimeStripAll(Some(s)) == Some(FirstDotField(ReplaceT(s)))
    ensures CleanDatetimeStripOne(Some(s)) == Some(FirstDotField(ReplaceT(s)))
  {
    var u := ReplaceT(s);
    CutIgnoresTrailingZ(u, RStripZ(u));
    var q := StripOneZ(u);
    assert q == u[..|q|] && forall i :: |q| <= i < |u| ==> u[i] == 'Z';
    CutIgnoresTrailingZ(u, q);
  }

  /** Without a `.`, strip-all drops the trailing `Z`s and strip-one keeps all but one. */
  lemma VariantsWithoutDot(s: string)
    requires s != "" && '.' !in ReplaceT(s)
    ensures var u := ReplaceT(s);
      var k := |u| - |RStripZ(u)|;
      CleanDatetimeStripAll(Some(s)) == Some(RStripZ(u)) &&
      CleanDatetimeStripOne(Some(s)) == Some(RStripZ(u) + ZRun(if k > 0 then k - 1 else 0))
  {
    var u := ReplaceT(s);
    StripOneKeepsRun(u);
    CutIgnoresTrailingZ(u, RStripZ(u));
    var q := StripOneZ(u);
    assert q == u[..|q|] && forall i :: |q| <= i < |u| ==> u[i] == 'Z';
    CutIgnoresTrailingZ(u, q);
  }

  /**
   * The two variants compared (delta_loader.py:78 against
   * PG_initial_loader.py:56-57), with `u` the `T`-replaced input and `k`
   * its number of trailing `Z`s: when `u` holds a `.` both return the text
   * before it; otherwise strip-all returns `u` without its `Z`s and
   * strip-one returns that followed by `k - 1` of them. So they differ
   * exactly when `u` has no `.` and ends in `ZZ`.
   */
  lemma VariantsCompared(s: string)
    ensures var u := ReplaceT(s);
      var k := |u| - |RStripZ(u)|;
      ('.' in u ==> CleanDatetimeStripAll(Some(s)) == Some(FirstDotField(u)) &&
                    CleanDatetimeStripOne(Some(s)) == Some(FirstDotField(u))) &&
      (s != "" && '.' !in u ==>
        CleanDatetimeStripAll(Some(s)) == Some(RStripZ(u)) &&
        CleanDatetimeStripOne(Some(s)) == Some(RStripZ(u) + ZRun(if k > 0 then k - 1 else 0))) &&
      (CleanDatetimeStripAll(Some(s)) != CleanDatetimeStripOne(Some(s)) <==> '.' !in u && k >= 2)
  {
    var u := ReplaceT(s);
    var p := RStripZ(u);
    var k := |u| - |p|;
    if '.' in u {
      VariantsWithDot(s);
    } else if s == "" {
      assert u == [];
    } else {
      VariantsWithoutDot(s);
      var z := ZRun(if k > 0 then k - 1 else 0);
      assert |p + z| == |p| + |z|;
      if k < 2 { assert p + z == p; }
    }
  }

  /**
   * "…ZZ": the strip-all variant removes both `Z`s, the strip-one variant
   * keeps one.
   */
  lemma {:induction false} DoubleZDiffers(date: string, time: string)
    requires NoSeparators(date) && NoSeparators(time)
    requires time != [] && time[|time| - 1] != 'Z'
    ensures CleanDatetimeStripAll(Some(date + "T" + time + "ZZ")) == Some(date + " " + time)
    ensures CleanDatetimeStripOne(Some(date + "T" + time + "ZZ")) == Some(date + " " + time + "Z")
  {
    DoubleZStripAll(date, time);
    DoubleZStripOne(date, time);
  }

  lemma DoubleZStripAll(date: string, time: string)
    requires NoSeparators(date) && NoSeparators(time)
    requires time != [] && time[|time| - 1] != 'Z'
    ensures CleanDatetimeStripAll(Some(date + "T" + time + "ZZ")) == Some(date + " " + time)
  {
    var head := date + " " + time;
    ReplaceIso(date, time, "ZZ");
    assert head[|head| - 1] == time[|time| - 1];
    RStripZAfterNonZ(head, "ZZ");
    assert "ZZ"[..1] == "Z" && "Z"[..0] == "";
    assert head + "" == head;
    DotFreeJoin(date, time);
  }

  lemma DoubleZStripOne(date: string, time: string)
    requires NoSeparators(date) && NoSeparators(time)
    ensures CleanDatetimeStripOne(Some(date + "T" + time + "ZZ")) == Some(date + " " + time + "Z")
  {
    var head := date + " " + time;
    var w := head + "ZZ";
    ReplaceIso(date, time, "ZZ");
    assert ReplaceT(date + "T" + time + "ZZ") == w;
    assert w[..|w| - 1] == head + "Z";
    var u := StripOneZ(w);
    assert u == head + "Z";
    DotFreeJoin(date, time);
    assert '.' !in u;
  }

  /** Joining two dot-free pieces with a space, and adding a `Z`, adds no `.`. */
  lemma DotFreeJoin(date: string, time: string)
    requires '.' !in date && '.' !in time
    ensures '.' !in date + " " + time && '.' !in date + " " + time + "Z"
  {
    var head := date + " " + time;
    forall i | 0 <= i < |head| + 1
      ensures (head + "Z")[i] != '.'
    {
      if i < |date| {
        assert (head + "Z")[i] == date[i];
      } else if |date| < i < |head| {
        assert (head + "Z")[i] == time[i - |date| - 1];
      }
    }
    assert forall i :: 0 <= i < |head| ==> head[i] == (head + "Z")[i];
  }

  /** The timestamp of a typical export line. */
  lemma IsoExample(s: string)
    requires s == "2024-01-02T03:04:05.123Z"
    ensures CleanDatetimeStripAll(Some(s)) == Some("2024-01-02 03:04:05")
  {
    var date, time, frac := s[..10], s[11..19], s[20..23];
    IsoExamplePieces(s);
    NormalisesIso(date, time, frac);
  }

  lemma IsoExamplePieces(s: string)
    requires s == "2024-01-02T03:04:05.123Z"
    ensures s[..10] + "T" + s[11..19] + "." + s[20..23] + "Z" == s
    ensures NoSeparators(s[..10]) && NoSeparators(s[11..19]) && 'T' !in s[20..23]
    ensures s[..10] + " " + s[11..19] == "2024-01-02 03:04:05"
  {
    assert s[..10] == "2024-01-02" && s[11..19] == "03:04:05" && s[20..23] == "123";
    IsoExampleJoin(s[..10], s[11..19], s[20..23]);
    ExampleJoined(s[..10], s[11..19]);
  }

  lemma IsoExampleJoin(date: string, time: string, frac: string)
    requires date == "2024-01-02" && time == "03:04:05" && frac == "123"
    ensures date + "T" + time + "." + frac + "Z" == "2024-01-02T03:04:05.123Z"
  {
  }

  lemma ExampleJoined(date: string, time: string)
    requires date == "2024-01-02" && time == "03:04:05"
    ensures date + " " + time == "2024-01-02 03:04:05"
    ensures date + " " + time + "Z" == "2024-01-02 03:04:05Z"
  {
  }

  /** A doubled zone marker: "…ZZ" keeps one `Z` in the strip-one variant only. */
  lemma DoubleZExample(s: string)
    requires s == "2024-01-02T03:04:05ZZ"
    ensures CleanDatetimeStripAll(Some(s)) == Some("2024-01-02 03:04:05")
    ensures CleanDatetimeStripOne(Some(s)) == Some("2024-01-02 03:04:05Z")
  {
    var date, time := s[..10], s[11..19];
    DoubleZExamplePieces(s);
    DoubleZDiffers(date, time);
  }

  lemma DoubleZExamplePieces(s: string)
    requires s == "2024-01-02T03:04:05ZZ"
    ensures s[..10] + "T" + s[11..19] + "ZZ" == s
    ensures NoSeparators(s[..10]) && NoSeparators(s[11..19]) && s[18] != 'Z'
    ensures s[..10] + " " + s[11..19] == "2024-01-02 03:04:05"
    ensures s[..10] + " " + s[11..19] + "Z" == "2024-01-02 03:04:05Z"
  {
    assert s[..10] == "2024-01-02" && s[11..19] == "03:04:05";
    DoubleZExampleJoin(s[..10], s[11..19]);
    ExampleJoined(s[..10], s[11..19]);
  }

  lemma DoubleZExampleJoin(date: string, time: string)
    requires date == "2024-01-02" && time == "03:04:05"
    ensures date + "T" + time + "ZZ" == "2024-01-02T03:04:05ZZ"
  {
  }

  /** test_single_file.py:23-27 — a bare "Z" is non-empty, so it becomes "" rather than `None`. */
  lemma LoneZBecomesEmpty()
    ensures CleanDatetimeStripAll(Some("Z")) == Some("")
    ensures CleanDatetimeStripOne(Some("Z")) == Some("")
  {
    assert ReplaceT("Z") == "Z";
    assert RStripZ("Z") == RStripZ("");
  }
}
