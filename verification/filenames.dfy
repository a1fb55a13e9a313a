/** File names of downloaded exports. */
module Filenames {
  import opened Common

  predicate Alphanumeric(c: char) {
    '0' <= c <= '9' || 'A' <= c <= 'Z' || 'a' <= c <= 'z'
  }

  // ----- reference: the alphanumeric runs of a name, joined by hyphens -----

  /** The maximal stretches of alphanumeric characters, from left to right. */
  function Runs(name: string): (runs: seq<string>)
    ensures name != [] && Alphanumeric(Last(name)) ==> runs != []
    decreases |name|
  {
    if name == [] then []
    else
      var front, c := Front(name), Last(name);
      if !Alphanumeric(c) then Runs(front)
      else if front == [] || !Alphanumeric(Last(front)) then Runs(front) + [[c]]
      else Front(Runs(front)) + [Last(Runs(front)) + [c]]
  }

  function Joined(runs: seq<string>): string
    decreases |runs|
  {
    if runs == [] then ""
    else if |runs| == 1 then runs[0]
    else Joined(Front(runs)) + "-" + Last(runs)
  }

  /** The alphanumeric characters of a string, in order. */
  function Kept(s: string): string
    decreases |s|
  {
    if s == [] then "" else Kept(Front(s)) + if Alphanumeric(Last(s)) then [Last(s)] else ""
  }

  predicate IsRun(s: string) {
    s != [] && forall i | 0 <= i < |s| :: Alphanumeric(s[i])
  }

  lemma {:induction false} RunsAreRuns(name: string)
    ensures forall i | 0 <= i < |Runs(name)| :: IsRun(Runs(name)[i])
    decreases |name|
  {
    if name != [] { RunsAreRuns(Front(name)); }
  }

  lemma JoinedGrowsLast(runs: seq<string>, c: char)
    requires runs != []
    ensures Joined(Front(runs) + [Last(runs) + [c]]) == Joined(runs) + [c]
  {
    assert Front(Front(runs) + [Last(runs) + [c]]) == Front(runs);
  }

  lemma JoinedAppends(runs: seq<string>, run: string)
    requires runs != []
    ensures Joined(runs + [run]) == Joined(runs) + "-" + run
  {
    assert Front(runs + [run]) == runs;
  }

  lemma KeptAppends(s: string, c: char)
    ensures Kept(s + [c]) == Kept(s) + if Alphanumeric(c) then [c] else ""
  {
    assert Front(s + [c]) == s;
  }

  /** Joining the runs loses no alphanumeric character and adds none. */
  lemma {:induction false} JoinedKeepsCharacters(name: string)
    ensures Kept(Joined(Runs(name))) == Kept(name)
    decreases |name|
  {
    if name != [] {
      var front, c := Front(name), Last(name);
      JoinedKeepsCharacters(front);
      if Alphanumeric(c) {
        KeptAppends(Joined(Runs(front)), c);
        if front != [] && Alphanumeric(Last(front)) {
          JoinedGrowsLast(Runs(front), c);
        } else if Runs(front) != [] {
          JoinedAppends(Runs(front), [c]);
          KeptAppends(Joined(Runs(front)), '-');
          KeptAppends(Joined(Runs(front)) + "-", c);
          assert Joined(Runs(front)) + "-" + [c] == Joined(Runs(name));
        } else {
          assert Runs(name) == [[c]] && Joined(Runs(front)) + [c] == [c];
        }
      }
    }
  }

  // ----- the steps of the code -----

  function Mapped(c: char): char {
    if Alphanumeric(c) || c == '-' then c else '-'
  }

  function MappedAll(s: string): string {
    seq(|s|, i requires 0 <= i < |s| => Mapped(s[i]))
  }

  function Collapsed(s: string): string
    decreases |s|
  {
    if s == [] then ""
    else if Last(s) == '-' && |s| > 1 && s[|s| - 2] == '-' then Collapsed(Front(s))
    else Collapsed(Front(s)) + [Last(s)]
  }

  function TrimEnd(s: string): string
    decreases |s|
  {
    if s != [] && Last(s) == '-' then TrimEnd(Front(s)) else s
  }

  function TrimStart(s: string): string {
    if s != [] && s[0] == '-' then TrimStart(s[1..]) else s
  }

  function Trimmed(s: string): string {
    TrimEnd(TrimStart(s))
  }

  // ----- what they amount to -----

  function Hyphen(c: char): string {
    if Alphanumeric(c) then "" else "-"
  }

  lemma AlphanumericExtends(front: string, x: char)
    requires front != [] && Alphanumeric(x)
    ensures var runs := Runs(front + [x]);
            && runs != []
            && (Runs(front) != [] ==> Joined(runs) == Joined(Runs(front)) + Hyphen(Last(front)) + [x])
            && (Runs(front) == [] ==> Joined(runs) == [x] && !Alphanumeric(front[0]))
  {
    assert Front(front + [x]) == front;
    if Alphanumeric(Last(front)) {
      JoinedGrowsLast(Runs(front), x);
    } else if Runs(front) != [] {
      JoinedAppends(Runs(front), [x]);
    } else {
      NoRunsNoAlphanumeric(front);
    }
  }

  lemma CollapsedStep(front: string, x: char)
    ensures Collapsed(MappedAll(front + [x])) ==
            if Alphanumeric(x) then Collapsed(MappedAll(front)) + [x]
            else if front != [] && !Alphanumeric(Last(front)) then Collapsed(MappedAll(front))
            else Collapsed(MappedAll(front)) + "-"
  {
    assert Front(MappedAll(front + [x])) == MappedAll(front);
    assert Last(MappedAll(front + [x])) == Mapped(x);
    assert front != [] ==> MappedAll(front + [x])[|front| - 1] == Mapped(Last(front));
  }

  /** Collapsing leaves the joined runs, between one hyphen for each end that is not alphanumeric. */
  ghost predicate Shape(name: string, c: string, runs: seq<string>) {
    if name == [] then c == "" && runs == []
    else if runs == [] then c == "-" && !Alphanumeric(Last(name))
    else c == Hyphen(name[0]) + Joined(runs) + Hyphen(Last(name))
  }

  lemma {:induction false} CollapsedShape(name: string)
    ensures Shape(name, Collapsed(MappedAll(name)), Runs(name))
    decreases |name|
  {
    if name == [] {
      assert MappedAll(name) == "";
    } else {
      var front, x := Front(name), Last(name);
      CollapsedShape(front);
      CollapsedStep(front, x);
      assert front + [x] == name;
      ShapeStep(front, x, Collapsed(MappedAll(front)), Collapsed(MappedAll(name)));
    }
  }

  lemma ShapeStep(front: string, x: char, c: string, c': string)
    requires Shape(front, c, Runs(front))
    requires c' == if Alphanumeric(x) then c + [x] else if front != [] && !Alphanumeric(Last(front)) then c else c + "-"
    ensures Shape(front + [x], c', Runs(front + [x]))
  {
    hide Joined, Runs;
    assert (front + [x])[0] == if front == [] then x else front[0];
    if Alphanumeric(x) {
      if front == [] {
        OneRun(x);
        assert front + [x] == [x] && c' == [x];
        Concatenated("", "", "", [x]);
      } else {
        AlphanumericExtends(front, x);
        Concatenated(Hyphen(front[0]), Joined(Runs(front)), Hyphen(Last(front)), [x]);
      }
    } else {
      NoRunAdded(front, x);
      if front != [] { Concatenated(Hyphen(front[0]), Joined(Runs(front)), Hyphen(Last(front)), "-"); }
    }
  }

  lemma NoRunAdded(front: string, x: char)
    requires !Alphanumeric(x)
    ensures Runs(front + [x]) == Runs(front) && Runs([]) == []
  {
    assert Front(front + [x]) == front;
  }

  lemma Concatenated(a: string, b: string, c: string, d: string)
    ensures a + b + c + d == a + (b + c + d) + "" && "" + a == a && a + "" == a
    ensures c == "" ==> a + b + c + d == a + b + d
  {
    assert c == "" ==> a + b + c == a + b;
  }

  lemma OneRun(x: char)
    requires Alphanumeric(x)
    ensures Runs([x]) == [[x]] && Joined([[x]]) == [x]
  {
  }

  lemma {:induction false} NoRunsNoAlphanumeric(name: string)
    ensures Runs(name) == [] <==> forall i | 0 <= i < |name| :: !Alphanumeric(name[i])
    decreases |name|
  {
    if name != [] {
      NoRunsNoAlphanumeric(Front(name));
      assert forall i | 0 <= i < |name| - 1 :: name[i] == Front(name)[i];
    }
  }

  /** No hyphen at either end and no two in a row. */
  predicate Clean(s: string) {
    && (forall i | 0 <= i < |s| :: Alphanumeric(s[i]) || s[i] == '-')
    && (forall i | 0 <= i < |s| - 1 :: s[i] == '-' ==> s[i + 1] != '-')
    && (s != [] ==> s[0] != '-' && Last(s) != '-')
  }

  lemma {:induction false} JoinedIsClean(runs: seq<string>)
    requires forall i | 0 <= i < |runs| :: IsRun(runs[i])
    ensures Clean(Joined(runs)) && (runs != [] ==> Joined(runs) != [])
    decreases |runs|
  {
    if |runs| > 1 { JoinedIsClean(Front(runs)); }
  }

  lemma {:induction false} CleanCollapses(s: string)
    requires forall i | 0 <= i < |s| :: Alphanumeric(s[i]) || s[i] == '-'
    requires forall i | 0 <= i < |s| - 1 :: s[i] == '-' ==> s[i + 1] != '-'
    ensures Collapsed(MappedAll(s)) == s
    decreases |s|
  {
    if s != [] {
      CleanCollapses(Front(s));
      assert MappedAll(s) == s && MappedAll(Front(s)) == Front(s);
    }
  }

  lemma TrimsOneHyphen(s: string)
    requires s != ""
    ensures s[0] != '-' ==> TrimStart("-" + s) == s && TrimStart(s) == s
    ensures Last(s) != '-' ==> TrimEnd(s + "-") == s && TrimEnd(s) == s
  {
    assert ("-" + s)[1..] == s;
    assert Front(s + "-") == s;
  }

  lemma TrimsBothEnds(j: string, first: char, last: char)
    requires Clean(j) && j != ""
    ensures Trimmed(Hyphen(first) + j + Hyphen(last)) == j
  {
    hide Clean, TrimStart, TrimEnd;
    var tail := j + Hyphen(last);
    assert Clean(j) ==> j[0] != '-' && Last(j) != '-' by { CleanEnds(j); }
    assert tail[0] == j[0];
    TrimsOneHyphen(j);
    TrimsOneHyphen(tail);
    Concatenated(j, "", "", "");
    Concatenated(tail, "", "", "");
    assert Hyphen(first) + j + Hyphen(last) == Hyphen(first) + tail;
  }

  lemma CleanEnds(s: string)
    ensures Clean(s) && s != "" ==> s[0] != '-' && Last(s) != '-'
  {
  }

  /** Trimming what collapsing leaves gives the joined runs. */
  lemma TrimmedIsJoined(name: string)
    ensures Trimmed(Collapsed(MappedAll(name))) == Joined(Runs(name))
  {
    CollapsedShape(name);
    RunsAreRuns(name);
    JoinedIsClean(Runs(name));
    hide Runs, Collapsed, MappedAll;
    if Runs(name) != [] {
      TrimsBothEnds(Joined(Runs(name)), name[0], Last(name));
    } else {
      assert "-"[1..] == "";
    }
  }

  /** Clean strings are their own runs joined again. */
  lemma CleanIsJoined(s: string)
    requires Clean(s)
    ensures Joined(Runs(s)) == s
  {
    CleanCollapses(s);
    TrimmedIsJoined(s);
  }

  function Cut(s: string, max: nat): string {
    if |s| > max then TrimEnd(s[..max]) else s
  }

  /** The part of the name before the extension. */
  function Base(name: string, max: nat): string {
    var cut := Cut(Joined(Runs(name)), max);
    if cut == "" then "export" else cut
  }

  predicate HasAlphanumeric(name: string) {
    exists i :: 0 <= i < |name| && Alphanumeric(name[i])
  }

  lemma {:induction false} TrimEndCuts(s: string)
    requires forall i | 0 <= i < |s| :: Alphanumeric(s[i]) || s[i] == '-'
    requires forall i | 0 <= i < |s| - 1 :: s[i] == '-' ==> s[i + 1] != '-'
    requires s != [] ==> s[0] != '-'
    ensures Clean(TrimEnd(s)) && TrimEnd(s) <= s && |TrimEnd(s)| >= |s| - 1
    decreases |s|
  {
  }

  lemma CutIsClean(s: string, max: nat)
    requires Clean(s)
    ensures var cut := Cut(s, max);
            Clean(cut) && cut <= s && |cut| <= max && (|cut| == |s| || |cut| >= max - 1) && (cut == "" <==> s == "" || max == 0)
  {
    if |s| > max {
      hide TrimEnd;
      TrimEndCuts(s[..max]);
      if max > 0 { FirstStays(s[..max]); }
    }
  }

  lemma {:induction false} FirstStays(s: string)
    requires s != "" && s[0] != '-'
    ensures TrimEnd(s) != ""
    decreases |s|
  {
    if Last(s) == '-' { FirstStays(Front(s)); }
  }

  lemma ExportIsClean()
    ensures Clean("export")
  {
  }

  /** The base is clean, and is the joined runs cut short by at most one character more than needed. */
  lemma BaseIsClean(name: string, max: nat)
    ensures var joined, base := Joined(Runs(name)), Base(name, max);
            && Clean(base) && base != ""
            && ((base <= joined && |base| <= max) || base == "export")
            && (HasAlphanumeric(name) && max > 0 ==>
                  base <= joined && |base| <= max && (|base| == |joined| || |base| >= max - 1))
            && (!HasAlphanumeric(name) || max == 0 ==> base == "export")
  {
    var joined := Joined(Runs(name));
    RunsAreRuns(name);
    JoinedIsClean(Runs(name));
    NoRunsNoAlphanumeric(name);
    CutIsClean(joined, max);
    ExportIsClean();
    hide Runs, Joined, Cut, Clean;
  }

  /** Sanitising a clean base again changes nothing if it fits. */
  lemma BaseOfClean(s: string, max: nat)
    requires Clean(s) && s != "" && |s| <= max
    ensures Base(s, max) == s
  {
    CleanIsJoined(s);
  }

  /**
   The whole name; none if the extension leaves no room, where the subtraction 100 - len - 1 underflows.
   */
  function Filename(name: string, extension: string): Option<string> {
    if |extension| > 99 then None else Some(Base(name, 99 - |extension|) + "." + extension)
  }

  /** Exactly when the promised limit of 100 characters is met: the default base ignores it. */
  lemma LengthIsBounded(name: string, extension: string)
    requires |extension| <= 99
    ensures |Filename(name, extension).value| <= 100 <==>
            |extension| <= 93 || (|extension| <= 98 && HasAlphanumeric(name))
  {
    BaseIsClean(name, 99 - |extension|);
  }

  lemma SameFilename(a: string, b: string, extension: string)
    ensures a + "." + extension == b + "." + extension <==> a == b
  {
    assert |a + "." + extension| == |a| + 1 + |extension| && |b + "." + extension| == |b| + 1 + |extension|;
    assert (a + "." + extension)[..|a|] == a && (b + "." + extension)[..|b|] == b;
  }

  /** Exactly when sanitising the base again gives the same file name. */
  lemma SanitisingTwice(name: string, extension: string)
    requires |extension| <= 99
    ensures var max := 99 - |extension|;
            Filename(Base(name, max), extension) == Filename(name, extension) <==>
            |extension| <= 93 || |extension| == 99 || HasAlphanumeric(name)
  {
    hide Runs, Joined, TrimEnd, Clean, Base;
    var max := 99 - |extension|;
    var base := Base(name, max);
    BaseIsClean(name, max);
    BaseIsClean(base, max);
    assert Alphanumeric("export"[0]);
    if |base| <= max { BaseOfClean(base, max); }
    SameFilename(base, Base(base, max), extension);
  }

  /** On character codes: only ASCII letters and digits, with single hyphens between them. */
  lemma FilenameIsPortable(name: string, max: nat)
    ensures var base := Base(name, max);
            && base != ""
            && (forall i | 0 <= i < |base| ::
                  var code := base[i] as int;
                  48 <= code <= 57 || 65 <= code <= 90 || 97 <= code <= 122 || (code == 45 && 0 < i < |base| - 1))
            && (forall i | 0 <= i < |base| - 1 :: base[i] as int == 45 ==> base[i + 1] as int != 45)
  {
    BaseIsClean(name, max);
    hide Base;
  }

  /** The characters kept are exactly those with the codes of ASCII letters and digits. */
  lemma AlphanumericCodes(c: char)
    ensures Alphanumeric(c) <==> (48 <= c as int <= 57 || 65 <= c as int <= 90 || 97 <= c as int <= 122)
  {
  }

  // ----- the code -----

  method TrimEndMatches(s: string) returns (r: string)
    ensures r == TrimEnd(s)
  {
    r := s;
    while r != [] && Last(r) == '-'
      invariant TrimEnd(r) == TrimEnd(s)
      decreases |r|
    {
      r := Front(r);
    }
  }

  method TrimMatches(s: string) returns (r: string)
    ensures r == Trimmed(s)
  {
    var start := s;
    while start != [] && start[0] == '-'
      invariant TrimStart(start) == TrimStart(s)
      decreases |start|
    {
      start := start[1..];
    }
    r := TrimEndMatches(start);
  }

  method SanitizeFilename(name: string, extension: string) returns (r: Option<string>)
    ensures r == Filename(name, extension)
  {
    if |extension| + 1 > 100 { return None; }
    var maxBaseLen := 100 - |extension| - 1;
    var sanitized := "";
    for i := 0 to |name|
      invariant sanitized == MappedAll(name[..i])
    {
      sanitized := sanitized + [if Alphanumeric(name[i]) || name[i] == '-' then name[i] else '-'];
    }
    assert name[..|name|] == name;
    var result, prevHyphen := "", false;
    for i := 0 to |sanitized|
      invariant result == Collapsed(sanitized[..i])
      invariant prevHyphen <==> i > 0 && sanitized[i - 1] == '-'
    {
      var c := sanitized[i];
      assert Front(sanitized[..i + 1]) == sanitized[..i];
      if c == '-' {
        if !prevHyphen { result := result + [c]; }
        prevHyphen := true;
      } else {
        result := result + [c];
        prevHyphen := false;
      }
    }
    assert sanitized[..|sanitized|] == sanitized;
    result := TrimMatches(result);
    TrimmedIsJoined(name);
    if |result| > maxBaseLen { result := TrimEndMatches(result[..maxBaseLen]); }
    var base := if result == [] then "export" else result;
    r := Some(base + "." + extension);
  }
}
