/**
  The function visitor of trivial-elim. For every function declaration the AST walk reaches,
  the visitor skips declarations of functions that are defined nowhere in the translation
  unit and bodies outside `.c` files; for every other one it takes the body's source range,
  builds the panic stub for it and writes the report line `name,start,end` to standard
  output. The visitor never stops the walk.

  The AST is abstracted to the sequence of function declarations in the order the walk
  reaches them, and each declaration to the facts the visitor reads from it.
 */
module TrivialElim {
  import opened Wrappers
  import opened PanicStmt

  /**
    One function declaration as the visitor sees it: its name; `hasBody`, whether `getBody()`
    finds a body, on this declaration or on any other declaration of the same function; and,
    for that body, the file name the source manager gives for its start and its printed start
    and end locations. A prototype of a function defined elsewhere in the unit therefore has
    `hasBody` set and carries the definition's file and locations.
   */
  datatype FunctionDecl = FunctionDecl(
    name: string,
    hasBody: bool,
    file: string,
    start: string,
    end: string)

  /** The source range of a function body, as two printed locations. */
  datatype SourceRange = SourceRange(begin: string, end: string)

  /** A pending replacement: the body range and the stub that would replace it. */
  datatype PlanEntry = PlanEntry(range: SourceRange, replacement: string)

  /** What visiting one declaration produces. */
  datatype VisitResult = Skipped | Planned(line: string, entry: PlanEntry)

  /** The only extension the visitor accepts. */
  const CExtension: string := ".c"

  /** Suffix test on a file name, as the string-reference `endswith` does it. */
  predicate EndsWith(s: string, suffix: string): (r: bool)
    ensures r <==> |suffix| <= |s| && forall i :: 0 <= i < |suffix| ==> s[|s| - |suffix| + i] == suffix[i]
  {
    |suffix| <= |s| && s[|s| - |suffix|..] == suffix
  }

  /**
    The eligibility filter: the function has a body somewhere in the unit, and that body lies
    in a file whose name ends in `.c`.
   */
  predicate IsEligible(d: FunctionDecl): (r: bool)
    ensures r <==>
      d.hasBody && |d.file| >= 2 && d.file[|d.file| - 2] == '.' && d.file[|d.file| - 1] == 'c'
  {
    d.hasBody && EndsWith(d.file, CExtension)
  }

  /** The report line written for a planned function. */
  function ReportLine(d: FunctionDecl): (line: string)
    ensures |line| == |d.name| + |d.start| + |d.end| + 2
    ensures line[|d.name|] == ',' && line[|d.name| + 1 + |d.start|] == ','
  {
    d.name + "," + d.start + "," + d.end
  }

  /** The replacement planned for a function: its body range, verbatim, and its stub. */
  function PlanEntryFor(d: FunctionDecl): (e: PlanEntry)
    ensures e.range.begin == d.start && e.range.end == d.end
    ensures |e.replacement| == |d.file| + |d.name| + Overhead
    ensures ':' !in d.name ==> ParseStub(e.replacement) == Some((d.file, d.name))
  {
    var e := PlanEntry(SourceRange(d.start, d.end), CreatePanicStmt(d.file, d.name));
    if ':' in d.name then e else StubRoundTrip(d.file, d.name); e
  }

  /** What one visit produces: the two early exits, then the report line and plan entry. */
  function Visit(d: FunctionDecl): (v: VisitResult)
    ensures v.Planned? <==> IsEligible(d)
    ensures v.Planned? ==> v.line == ReportLine(d) && v.entry == PlanEntryFor(d)
  {
    if !d.hasBody then Skipped
    else if !EndsWith(d.file, CExtension) then Skipped
    else Planned(ReportLine(d), PlanEntryFor(d))
  }

  /** The lines one visit writes: none, or its report line. */
  function LinesOf(v: VisitResult): seq<string>
  {
    match v
    case Skipped => []
    case Planned(line, _) => [line]
  }

  /** The plan entries one visit computes: none, or its entry. */
  function EntriesOf(v: VisitResult): seq<PlanEntry>
  {
    match v
    case Skipped => []
    case Planned(_, entry) => [entry]
  }

  /** The report lines of a whole walk: each declaration's own output, in walk order. */
  function Report(decls: seq<FunctionDecl>): seq<string>
  {
    if decls == [] then [] else LinesOf(Visit(decls[0])) + Report(decls[1..])
  }

  /** The plan entries of a whole walk, in walk order. */
  function Plan(decls: seq<FunctionDecl>): seq<PlanEntry>
  {
    if decls == [] then [] else EntriesOf(Visit(decls[0])) + Plan(decls[1..])
  }

  /** The eligible declarations of a walk, in walk order: the filter half of filter/map. */
  function Candidates(decls: seq<FunctionDecl>): (c: seq<FunctionDecl>)
    ensures |c| <= |decls|
    ensures forall d :: d in c <==> d in decls && IsEligible(d)
  {
    if decls == [] then []
    else (if IsEligible(decls[0]) then [decls[0]] else []) + Candidates(decls[1..])
  }

  /**
    A declaration is planned exactly when it has a body and the file of its body ends in the
    two characters `.` and `c`; nothing else about it matters.
   */
  lemma VisitPlansIffEligible(d: FunctionDecl)
    ensures Visit(d).Planned? <==> IsEligible(d)
    ensures IsEligible(d) <==>
      d.hasBody && |d.file| >= 2 && d.file[|d.file| - 2] == '.' && d.file[|d.file| - 1] == 'c'
  {
    if |d.file| >= 2 {
      assert d.file[|d.file| - 2..] == [d.file[|d.file| - 2], d.file[|d.file| - 1]];
    }
  }

  /** The suffix test is exact and case-sensitive. */
  lemma CExtensionExamples()
    ensures EndsWith("foo.c", CExtension) && EndsWith("a.b.c", CExtension) && EndsWith(".c", CExtension)
    ensures !EndsWith("foo.C", CExtension) && !EndsWith("foo.h", CExtension)
    ensures !EndsWith("foo.cc", CExtension) && !EndsWith("foo", CExtension)
    ensures !EndsWith("c", CExtension) && !EndsWith("", CExtension)
  {
    assert "foo.c"[3..] == ".c";
    assert "a.b.c"[3..] == ".c";
    assert "foo.C"[3..] != ".c" by { assert "foo.C"[3..][1] == 'C'; }
    assert "foo.h"[3..] != ".c" by { assert "foo.h"[3..][1] == 'h'; }
    assert "foo.cc"[4..] != ".c" by { assert "foo.cc"[4..][0] == 'c'; }
    assert "foo"[1..] != ".c" by { assert "foo"[1..][0] == 'o'; }
  }

  /**
    A declaration of a function that is defined nowhere in the unit never produces a report
    line or a plan entry: taking it out of the walk leaves the report and the plan as they were.
   */
  lemma {:induction false} NoBodyNoOutput(decls: seq<FunctionDecl>, i: nat)
    requires i < |decls| && !decls[i].hasBody
    ensures Report(decls) == Report(decls[..i] + decls[i + 1..])
    ensures Plan(decls) == Plan(decls[..i] + decls[i + 1..])
  {
    var before, d, after := decls[..i], decls[i], decls[i + 1..];
    assert decls[i..] == [d] + after;
    assert decls == before + decls[i..];
    AppendAssoc(before, [d], after);
    VisitInContext(before, d, after);
    assert Report([d]) == [] && Plan([d]) == [];
    assert Report(before) + [] == Report(before);
    assert Plan(before) + [] == Plan(before);
    WalkAppend(before, after);
  }

  /** The outcome of a visit reads nothing but the declaration's own fields. */
  lemma VisitIsLocal(d1: FunctionDecl, d2: FunctionDecl)
    requires d1.hasBody == d2.hasBody && d1.file == d2.file
    ensures Visit(d1).Planned? == Visit(d2).Planned?
    ensures d1.name == d2.name && Visit(d1).Planned? ==>
      Visit(d1).entry.replacement == Visit(d2).entry.replacement
  {
  }

  /** The output of a walk over two stretches is the output of the first, then of the second. */
  lemma {:induction false} WalkAppend(a: seq<FunctionDecl>, b: seq<FunctionDecl>)
    ensures Report(a + b) == Report(a) + Report(b)
    ensures Plan(a + b) == Plan(a) + Plan(b)
  {
    if a == [] {
      assert a + b == b;
    } else {
      var v := Visit(a[0]);
      assert (a + b)[0] == a[0];
      assert (a + b)[1..] == a[1..] + b;
      WalkAppend(a[1..], b);
      AppendAssoc(LinesOf(v), Report(a[1..]), Report(b));
      AppendAssoc(EntriesOf(v), Plan(a[1..]), Plan(b));
    }
  }

  /** Walking one more declaration appends that declaration's own output. */
  lemma {:induction false} WalkSnoc(decls: seq<FunctionDecl>, i: nat)
    requires i < |decls|
    ensures Report(decls[..i + 1]) == Report(decls[..i]) + LinesOf(Visit(decls[i]))
    ensures Plan(decls[..i + 1]) == Plan(decls[..i]) + EntriesOf(Visit(decls[i]))
  {
    assert decls[..i + 1] == decls[..i] + [decls[i]];
    WalkAppend(decls[..i], [decls[i]]);
    assert [decls[i]][1..] == [];
  }

  /**
    A function whose definition the walk reaches twice, once through an earlier declaration
    and once through the definition itself, is reported twice and planned twice, with the
    same line and the same entry both times.
   */
  lemma {:induction false} RedeclaredDefinitionReportedTwice(
    a: seq<FunctionDecl>, d: FunctionDecl, b: seq<FunctionDecl>, c: seq<FunctionDecl>)
    requires IsEligible(d)
    ensures var r := Report(a + [d] + b + [d] + c);
      var i := |Report(a)|;
      var j := i + 1 + |Report(b)|;
      j < |r| && r[i] == ReportLine(d) && r[j] == ReportLine(d)
    ensures var p := Plan(a + [d] + b + [d] + c);
      var i := |Plan(a)|;
      var j := i + 1 + |Plan(b)|;
      j < |p| && p[i] == PlanEntryFor(d) && p[j] == PlanEntryFor(d)
  {
    VisitInContext(a + [d] + b, d, c);
    VisitInContext(a, d, b);
  }

  /** Concatenation of sequences is associative. */
  lemma AppendAssoc<T>(a: seq<T>, b: seq<T>, c: seq<T>)
    ensures (a + b) + c == a + (b + c)
  {
  }

  /**
    Non-interference: wherever a declaration stands in the walk, it contributes exactly its
    own visit's output, and the declarations around it contribute theirs.
   */
  lemma {:induction false} VisitInContext(before: seq<FunctionDecl>, d: FunctionDecl, after: seq<FunctionDecl>)
    ensures Report(before + [d] + after) == Report(before) + Report([d]) + Report(after)
    ensures Plan(before + [d] + after) == Plan(before) + Plan([d]) + Plan(after)
    ensures Report([d]) == (if IsEligible(d) then [ReportLine(d)] else [])
    ensures Plan([d]) == (if IsEligible(d) then [PlanEntryFor(d)] else [])
  {
    WalkAppend(before + [d], after);
    WalkAppend(before, [d]);
    assert [d][1..] == [];
  }

  /**
    The report is a filter followed by a map: the k-th report line is the line of the k-th
    eligible declaration, so there is one line per eligible declaration, in walk order.
   */
  lemma {:induction false} ReportIsFilterMap(decls: seq<FunctionDecl>)
    ensures |Report(decls)| == |Candidates(decls)|
    ensures forall k :: 0 <= k < |Report(decls)| ==>
      Report(decls)[k] == ReportLine(Candidates(decls)[k])
  {
    if decls != [] {
      var d, rest := decls[0], decls[1..];
      ReportIsFilterMap(rest);
      if IsEligible(d) {
        assert Report(decls) == [ReportLine(d)] + Report(rest);
        assert Candidates(decls) == [d] + Candidates(rest);
      } else {
        assert Report(decls) == Report(rest);
        assert Candidates(decls) == Candidates(rest);
      }
    }
  }

  /**
    The plan is the same filter followed by a map: the k-th plan entry is the entry of the
    k-th eligible declaration, so there are as many entries as report lines.
   */
  lemma {:induction false} PlanIsFilterMap(decls: seq<FunctionDecl>)
    ensures |Plan(decls)| == |Candidates(decls)|
    ensures forall k :: 0 <= k < |Plan(decls)| ==>
      Plan(decls)[k] == PlanEntryFor(Candidates(decls)[k])
  {
    if decls != [] {
      var d, rest := decls[0], decls[1..];
      PlanIsFilterMap(rest);
      if IsEligible(d) {
        assert Plan(decls) == [PlanEntryFor(d)] + Plan(rest);
        assert Candidates(decls) == [d] + Candidates(rest);
      } else {
        assert Plan(decls) == Plan(rest);
        assert Candidates(decls) == Candidates(rest);
      }
    }
  }

  /** Every eligible declaration of the walk gets its report line and its plan entry. */
  lemma {:induction false} EligibleIsReported(decls: seq<FunctionDecl>, d: FunctionDecl)
    requires d in decls && IsEligible(d)
    ensures ReportLine(d) in Report(decls)
    ensures PlanEntryFor(d) in Plan(decls)
  {
    var c := Candidates(decls);
    assert d in c;
    var k :| 0 <= k < |c| && c[k] == d;
    ReportIsFilterMap(decls);
    PlanIsFilterMap(decls);
    assert Report(decls)[k] == ReportLine(d);
    assert Plan(decls)[k] == PlanEntryFor(d);
  }

  /** Every reported line is the line of some eligible declaration of the walk. */
  lemma {:induction false} ReportedComesFromEligible(decls: seq<FunctionDecl>, line: string)
    requires line in Report(decls)
    ensures exists d :: d in decls && IsEligible(d) && ReportLine(d) == line
  {
    ReportIsFilterMap(decls);
    var c := Candidates(decls);
    var k :| 0 <= k < |Report(decls)| && Report(decls)[k] == line;
    assert c[k] in c;
  }

  /**
    Range fidelity: every plan entry replaces exactly the body range of an eligible
    declaration of the walk with that declaration's own stub.
   */
  lemma {:induction false} PlanEntriesFromEligible(decls: seq<FunctionDecl>, e: PlanEntry)
    requires e in Plan(decls)
    ensures exists d :: (d in decls && IsEligible(d) &&
      e.range == SourceRange(d.start, d.end) && e.replacement == CreatePanicStmt(d.file, d.name))
  {
    PlanIsFilterMap(decls);
    var c := Candidates(decls);
    var k :| 0 <= k < |Plan(decls)| && Plan(decls)[k] == e;
    assert c[k] in c;
  }

  /** The report line starts with the function's name and ends with the body's end location. */
  lemma ReportLineFields(d: FunctionDecl)
    ensures var line := ReportLine(d);
      && |line| == |d.name| + |d.start| + |d.end| + 2
      && line[..|d.name| + 1] == d.name + ","
      && line[|d.name| + 1..|d.name| + 1 + |d.start|] == d.start
      && line[|line| - |d.end| - 1..] == "," + d.end
  {
    var line := ReportLine(d);
    assert line == d.name + "," + d.start + "," + d.end;
    assert line[|d.name| + 1..] == d.start + "," + d.end;
  }

  /**
    The visitor. Its output stream is the sequence of lines written so far; `planned`
    collects the (range, stub) pairs the visitor computes for the rewriter.
   */
  class FindTrivialFuncVisitor {
    var report: seq<string>
    /** Computed by every visit that keeps a function, then discarded: not observable output. */
    ghost var planned: seq<PlanEntry>

    constructor ()
      ensures report == [] && planned == []
    {
      report := [];
      planned := [];
    }

    /** Visits one declaration; the answer `true` tells the walk to go on. */
    method VisitFunctionDecl(d: FunctionDecl) returns (keepGoing: bool)
      modifies this
      ensures keepGoing
      ensures report == old(report) + LinesOf(Visit(d))
      ensures planned == old(planned) + EntriesOf(Visit(d))
    {
      var name := d.name;
      if !d.hasBody {
        return true;
      }
      var start, end := d.start, d.end;
      var fileName := d.file;
      if !EndsWith(fileName, CExtension) {
        return true;
      }
      var range := SourceRange(start, end);
      var replace := CreatePanicStmt(fileName, name);
      planned := planned + [PlanEntry(range, replace)];
      report := report + [name + "," + start + "," + end];
      return true;
    }

    /** Walks the declarations in order, going on for as long as the visits ask to. */
    method TraverseDecls(decls: seq<FunctionDecl>) returns (visited: nat)
      modifies this
      ensures visited == |decls|
      ensures report == old(report) + Report(decls)
      ensures planned == old(planned) + Plan(decls)
    {
      var keepGoing := true;
      visited := 0;
      while visited < |decls| && keepGoing
        invariant visited <= |decls|
        invariant keepGoing
        invariant report == old(report) + Report(decls[..visited])
        invariant planned == old(planned) + Plan(decls[..visited])
      {
        keepGoing := VisitFunctionDecl(decls[visited]);
        WalkSnoc(decls, visited);
        AppendAssoc(old(report), Report(decls[..visited]), LinesOf(Visit(decls[visited])));
        AppendAssoc(old(planned), Plan(decls[..visited]), EntriesOf(Visit(decls[visited])));
        visited := visited + 1;
      }
      assert decls[..visited] == decls;
    }
  }

  /** One translation unit: a fresh visitor walks all its declarations. */
  method HandleTranslationUnit(decls: seq<FunctionDecl>) returns (report: seq<string>, ghost planned: seq<PlanEntry>)
    ensures report == Report(decls)
    ensures planned == Plan(decls)
  {
    var visitor := new FindTrivialFuncVisitor();
    var _ := visitor.TraverseDecls(decls);
    report, planned := visitor.report, visitor.planned;
  }
}
