/** A model of the LOBSTER requirements-tracing check for clang-tidy.

    Two cooperating parts:
    - TracingCommentHandler sees every comment the lexer produces and keeps the
      ones that start with "// lobster-trace:" or "// lobster-exclude:", each
      with its source range and the text after the prefix;
    - TracingCheck.Check is run once per matched function declaration and
      reports, at the declaration's location, every stored comment that lies in
      the declaration's body, or that there are none.

    Source locations are integers, and a diagnostic is a datatype value rather
    than formatted text (Render gives the three message shapes).
 */
module Tracing {

  datatype Option<T> = None | Some(value: T)

  // ---------------------------------------------------------------------------
  // Source ranges
  // ---------------------------------------------------------------------------

  /** A begin/end pair of source locations. */
  datatype SourceRange = SourceRange(b: int, e: int)

  /** `outer` fully contains `inner`: both ends of `inner` lie within `outer`,
      bounds included. */
  predicate FullyContains(outer: SourceRange, inner: SourceRange)
  {
    outer.b <= inner.b && inner.e <= outer.e
  }

  lemma FullyContainsTransitive(a: SourceRange, b: SourceRange, c: SourceRange)
    requires FullyContains(a, b) && FullyContains(b, c)
    ensures FullyContains(a, c)
  {
  }

  // ---------------------------------------------------------------------------
  // Comment classification
  // ---------------------------------------------------------------------------

  const TracePrefix: string := "// lobster-trace:"
  const ExcludePrefix: string := "// lobster-exclude:"

  /** The handler's stored prefix lengths, taken from the prefix strings. */
  const TraceLen: nat := |TracePrefix|
  const ExcludeLen: nat := |ExcludePrefix|

  lemma PrefixLengths()
    ensures TraceLen == 17 && ExcludeLen == 19
  {
  }

  /** `text` begins with `prefix`, compared character by character on the
      untrimmed text. */
  predicate StartsWith(text: string, prefix: string)
  {
    |prefix| <= |text| && text[..|prefix|] == prefix
  }

  /** No comment starts with both prefixes: they part at the character after
      "// lobster-". So the order of the two tests in HandleComment does not
      matter. */
  lemma PrefixesExclusive(text: string)
    ensures !(StartsWith(text, TracePrefix) && StartsWith(text, ExcludePrefix))
  {
    if StartsWith(text, TracePrefix) {
      assert text[11] == TracePrefix[11] == 't';
    }
  }

  datatype CommentKind = Trace | Exclude

  datatype Classification =
    | Tagged(kind: CommentKind, payload: string)
    | Ignored

  /** How HandleComment sorts one comment. The payload is the text after the
      prefix, kept verbatim (a space after the colon stays), so prefix and
      payload put back together give the comment text again. */
  function Classify(text: string): (c: Classification)
    ensures c.Tagged? && c.kind == Trace <==> StartsWith(text, TracePrefix)
    ensures c.Tagged? && c.kind == Exclude <==>
              !StartsWith(text, TracePrefix) && StartsWith(text, ExcludePrefix)
    ensures c.Tagged? && c.kind == Trace ==> TracePrefix + c.payload == text
    ensures c.Tagged? && c.kind == Exclude ==> ExcludePrefix + c.payload == text
  {
    if StartsWith(text, TracePrefix) then
      assert TracePrefix + text[TraceLen..] == text[..TraceLen] + text[TraceLen..];
      Tagged(Trace, text[TraceLen..])
    else if StartsWith(text, ExcludePrefix) then
      assert ExcludePrefix + text[ExcludeLen..] == text[..ExcludeLen] + text[ExcludeLen..];
      Tagged(Exclude, text[ExcludeLen..])
    else
      Ignored
  }

  /** A comment as the preprocessor reports it: its raw text and its range. */
  datatype RawComment = RawComment(text: string, range: SourceRange)

  /** One entry of trace_comments or exclude_comments. */
  datatype StoredComment = StoredComment(range: SourceRange, payload: string)

  /** What one comment contributes to the list of kind `k`: one entry or none. */
  function EntryOf(k: CommentKind, c: RawComment): seq<StoredComment>
  {
    match Classify(c.text)
    case Tagged(k', p) => if k' == k then [StoredComment(c.range, p)] else []
    case Ignored => []
  }

  /** The list of kind `k` that a handler holds after seeing `cs`, in order. */
  function Entries(k: CommentKind, cs: seq<RawComment>): seq<StoredComment>
  {
    if cs == [] then [] else EntryOf(k, cs[0]) + Entries(k, cs[1..])
  }

  /** The lists only grow at the end: the entries of earlier comments are
      never changed or removed, and later ones follow them. */
  lemma {:induction false} EntriesAppend(k: CommentKind, a: seq<RawComment>, b: seq<RawComment>)
    ensures Entries(k, a + b) == Entries(k, a) + Entries(k, b)
  {
    if a == [] {
      assert a + b == b;
    } else {
      assert (a + b)[1..] == a[1..] + b;
      EntriesAppend(k, a[1..], b);
    }
  }

  /** What a single comment contributes, spelled out by the prefix test. */
  lemma EntriesSingle(k: CommentKind, c: RawComment)
    ensures Entries(k, [c]) == EntryOf(k, c)
    ensures EntryOf(k, c)
            == if k == Trace && StartsWith(c.text, TracePrefix) then
                 [StoredComment(c.range, c.text[TraceLen..])]
               else if k == Exclude && !StartsWith(c.text, TracePrefix) && StartsWith(c.text, ExcludePrefix) then
                 [StoredComment(c.range, c.text[ExcludeLen..])]
               else []
  {
    assert [c][1..] == [];
  }

  /** Every stored entry comes from a seen comment of that kind, with the same
      range and the payload that Classify cut from its text. */
  lemma {:induction false} EntriesOrigin(k: CommentKind, cs: seq<RawComment>, e: StoredComment)
    requires e in Entries(k, cs)
    ensures exists i :: 0 <= i < |cs| && cs[i].range == e.range
                     && Classify(cs[i].text) == Tagged(k, e.payload)
  {
    if e in EntryOf(k, cs[0]) {
      assert cs[0].range == e.range && Classify(cs[0].text) == Tagged(k, e.payload);
    } else {
      EntriesOrigin(k, cs[1..], e);
      var i :| 0 <= i < |cs[1..]| && cs[1..][i].range == e.range
               && Classify(cs[1..][i].text) == Tagged(k, e.payload);
      assert cs[i + 1] == cs[1..][i];
    }
  }

  /** The comment handler: two append-only lists of classified comments. */
  class TracingCommentHandler {
    var traceComments: seq<StoredComment>
    var excludeComments: seq<StoredComment>
    /** Every comment seen so far, in the order HandleComment was called. */
    ghost var seen: seq<RawComment>

    ghost predicate Valid()
      reads this
    {
      traceComments == Entries(Trace, seen) && excludeComments == Entries(Exclude, seen)
    }

    constructor ()
      ensures Valid() && seen == []
      ensures traceComments == [] && excludeComments == []
    {
      traceComments, excludeComments := [], [];
      seen := [];
    }

    /** Store `text` with its range when it is a trace or exclude comment.
        Never claims the comment, so compilation goes on unaffected. */
    method HandleComment(text: string, range: SourceRange) returns (handled: bool)
      requires Valid()
      modifies this
      ensures Valid() && seen == old(seen) + [RawComment(text, range)]
      ensures !handled
      ensures StartsWith(text, TracePrefix) ==>
                traceComments == old(traceComments) + [StoredComment(range, text[TraceLen..])]
                && excludeComments == old(excludeComments)
      ensures !StartsWith(text, TracePrefix) && StartsWith(text, ExcludePrefix) ==>
                excludeComments == old(excludeComments) + [StoredComment(range, text[ExcludeLen..])]
                && traceComments == old(traceComments)
      ensures !StartsWith(text, TracePrefix) && !StartsWith(text, ExcludePrefix) ==>
                traceComments == old(traceComments) && excludeComments == old(excludeComments)
    {
      ghost var c := RawComment(text, range);
      EntriesAppend(Trace, seen, [c]);
      EntriesAppend(Exclude, seen, [c]);
      EntriesSingle(Trace, c);
      EntriesSingle(Exclude, c);
      if StartsWith(text, TracePrefix) {
        traceComments := traceComments + [StoredComment(range, text[TraceLen..])];
      } else if StartsWith(text, ExcludePrefix) {
        excludeComments := excludeComments + [StoredComment(range, text[ExcludeLen..])];
      }
      seen := seen + [c];
      handled := false;
    }
  }

  // ---------------------------------------------------------------------------
  // Declarations and diagnostics
  // ---------------------------------------------------------------------------

  /** What the check learns about a matched function declaration from the AST. */
  datatype Decl = Decl(
    hasBody: bool,
    bodyRange: SourceRange,
    loc: int,
    qualName: string,
    isMain: bool,
    isMember: bool,
    isDestructor: bool,
    classHasUserDtor: bool)

  datatype Kind = MainFunction | Method | Function

  function KindText(k: Kind): string
  {
    match k
    case MainFunction => "main function"
    case Method => "method"
    case Function => "function"
  }

  /** The kind a declaration is reported as, or None for a destructor the
      compiler supplies (its class declares none). The entry point is
      "main function" whatever else holds. */
  function SelectKind(d: Decl): (k: Option<Kind>)
    ensures k == Some(MainFunction) <==> d.isMain
    ensures k == Some(Method) <==>
              !d.isMain && d.isMember && (d.isDestructor ==> d.classHasUserDtor)
    ensures k == Some(Function) <==> !d.isMain && !d.isMember
    ensures k == None <==>
              !d.isMain && d.isMember && d.isDestructor && !d.classHasUserDtor
  {
    if d.isMain then Some(MainFunction)
    else if d.isMember then
      if d.isDestructor && !d.classHasUserDtor then None else Some(Method)
    else Some(Function)
  }

  /** A warning of the check, at source location `loc`. */
  datatype Diagnostic =
    | Traces(loc: int, kind: Kind, name: string, payload: string)
    | Exempt(loc: int, kind: Kind, name: string, payload: string)
    | NoTags(loc: int, kind: Kind, name: string)

  /** The part every message starts with: the kind, a space, the qualified name. */
  function MessageHead(diag: Diagnostic): string
  {
    KindText(diag.kind) + " " + diag.name
  }

  /** The message text of a diagnostic: the head, the fixed text of its shape,
      then (for Traces and Exempt) the payload exactly as stored, with nothing
      stripped. */
  function Render(diag: Diagnostic): (r: string)
    ensures StartsWith(r, MessageHead(diag))
    ensures diag.Traces? ==>
              |r| == |MessageHead(diag)| + |" traces to "| + |diag.payload|
              && r[|MessageHead(diag)|..|r| - |diag.payload|] == " traces to "
              && r[|r| - |diag.payload|..] == diag.payload
    ensures diag.Exempt? ==>
              |r| == |MessageHead(diag)| + |" exempt from tracing: "| + |diag.payload|
              && r[|MessageHead(diag)|..|r| - |diag.payload|] == " exempt from tracing: "
              && r[|r| - |diag.payload|..] == diag.payload
    ensures diag.NoTags? ==>
              |r| == |MessageHead(diag)| + |" has no tracing tags"|
              && r[|MessageHead(diag)|..] == " has no tracing tags"
  {
    var head := MessageHead(diag);
    match diag
    case Traces(_, _, _, p) =>
      var r := head + " traces to " + p;
      assert r[|head|..|r| - |p|] == " traces to ";
      r
    case Exempt(_, _, _, p) =>
      var r := head + " exempt from tracing: " + p;
      assert r[|head|..|r| - |p|] == " exempt from tracing: ";
      r
    case NoTags(_, _, _) => head + " has no tracing tags"
  }

  // ---------------------------------------------------------------------------
  // The reference definition of what Check reports
  // ---------------------------------------------------------------------------

  /** The entries of `cs` whose range lies in `body`, in list order. */
  function Contained(body: SourceRange, cs: seq<StoredComment>): seq<StoredComment>
  {
    if cs == [] then []
    else (if FullyContains(body, cs[0].range) then [cs[0]] else []) + Contained(body, cs[1..])
  }

  lemma {:induction false} ContainedAppend(body: SourceRange, a: seq<StoredComment>, b: seq<StoredComment>)
    ensures Contained(body, a + b) == Contained(body, a) + Contained(body, b)
  {
    if a == [] {
      assert a + b == b;
    } else {
      assert (a + b)[1..] == a[1..] + b;
      ContainedAppend(body, a[1..], b);
    }
  }

  /** An entry is kept exactly when it is in the list and inside the body. */
  lemma {:induction false} ContainedMembers(body: SourceRange, cs: seq<StoredComment>, x: StoredComment)
    ensures x in Contained(body, cs) <==> x in cs && FullyContains(body, x.range)
  {
    if cs != [] {
      ContainedMembers(body, cs[1..], x);
      assert x in cs <==> x == cs[0] || x in cs[1..];
    }
  }

  /** One more entry looked at: it is kept when its range lies in `body`. */
  lemma ContainedStep(body: SourceRange, cs: seq<StoredComment>, i: nat)
    requires i < |cs|
    ensures Contained(body, cs[..i + 1])
            == Contained(body, cs[..i]) + (if FullyContains(body, cs[i].range) then [cs[i]] else [])
  {
    assert cs[..i + 1] == cs[..i] + [cs[i]];
    ContainedAppend(body, cs[..i], [cs[i]]);
  }

  lemma AppendAssoc<T>(a: seq<T>, b: seq<T>, c: seq<T>)
    ensures (a + b) + c == a + (b + c)
  {
  }

  function TraceDiags(d: Decl, k: Kind, cs: seq<StoredComment>): seq<Diagnostic>
  {
    seq(|cs|, i requires 0 <= i < |cs| => Traces(d.loc, k, d.qualName, cs[i].payload))
  }

  function ExemptDiags(d: Decl, k: Kind, cs: seq<StoredComment>): seq<Diagnostic>
  {
    seq(|cs|, i requires 0 <= i < |cs| => Exempt(d.loc, k, d.qualName, cs[i].payload))
  }

  lemma TraceDiagsSnoc(d: Decl, k: Kind, cs: seq<StoredComment>, c: StoredComment)
    ensures TraceDiags(d, k, cs + [c]) == TraceDiags(d, k, cs) + [Traces(d.loc, k, d.qualName, c.payload)]
  {
  }

  lemma ExemptDiagsSnoc(d: Decl, k: Kind, cs: seq<StoredComment>, c: StoredComment)
    ensures ExemptDiags(d, k, cs + [c]) == ExemptDiags(d, k, cs) + [Exempt(d.loc, k, d.qualName, c.payload)]
  {
  }

  /** The contained trace entries, then the contained exclude entries, one
      diagnostic each; a single NoTags when there are none of either. */
  function Annotate(d: Decl, traces: seq<StoredComment>, excludes: seq<StoredComment>): seq<Diagnostic>
  {
    if !d.hasBody then []
    else
      match SelectKind(d)
      case None => []
      case Some(k) =>
        var found := TraceDiags(d, k, Contained(d.bodyRange, traces))
                     + ExemptDiags(d, k, Contained(d.bodyRange, excludes));
        if found == [] then [NoTags(d.loc, k, d.qualName)] else found
  }

  /** For a declaration that is reported: the diagnostics found, followed by
      NoTags exactly when none were found. */
  lemma AnnotateProcessed(d: Decl, k: Kind, traces: seq<StoredComment>, excludes: seq<StoredComment>,
                          found: bool)
    requires d.hasBody && SelectKind(d) == Some(k)
    requires found <==> Contained(d.bodyRange, traces) != [] || Contained(d.bodyRange, excludes) != []
    ensures Annotate(d, traces, excludes)
            == TraceDiags(d, k, Contained(d.bodyRange, traces))
               + ExemptDiags(d, k, Contained(d.bodyRange, excludes))
               + (if found then [] else [NoTags(d.loc, k, d.qualName)])
  {
  }

  /** A declaration gets no diagnostic exactly when it has no body or is a
      destructor the compiler supplies. */
  lemma AnnotateSkips(d: Decl, traces: seq<StoredComment>, excludes: seq<StoredComment>)
    ensures Annotate(d, traces, excludes) == [] <==>
              !d.hasBody || (!d.isMain && d.isMember && d.isDestructor && !d.classHasUserDtor)
  {
  }

  /** NoTags appears exactly when no entry of either list lies in the body,
      and then it is the only diagnostic. */
  lemma AnnotateNoTags(d: Decl, traces: seq<StoredComment>, excludes: seq<StoredComment>)
    requires d.hasBody && SelectKind(d).Some?
    ensures var r := Annotate(d, traces, excludes);
            (exists i :: 0 <= i < |r| && r[i].NoTags?) <==>
              (forall c :: c in traces ==> !FullyContains(d.bodyRange, c.range)) &&
              (forall c :: c in excludes ==> !FullyContains(d.bodyRange, c.range))
    ensures var r := Annotate(d, traces, excludes);
            (exists i :: 0 <= i < |r| && r[i].NoTags?) ==>
              r == [NoTags(d.loc, SelectKind(d).value, d.qualName)]
  {
    var k := SelectKind(d).value;
    var ct, cx := Contained(d.bodyRange, traces), Contained(d.bodyRange, excludes);
    var r := Annotate(d, traces, excludes);
    if ct != [] {
      ContainedMembers(d.bodyRange, traces, ct[0]);
      assert r[0].Traces?;
    } else if cx != [] {
      ContainedMembers(d.bodyRange, excludes, cx[0]);
      assert r[0].Exempt?;
    } else {
      forall c | c in traces ensures !FullyContains(d.bodyRange, c.range) {
        ContainedMembers(d.bodyRange, traces, c);
      }
      forall c | c in excludes ensures !FullyContains(d.bodyRange, c.range) {
        ContainedMembers(d.bodyRange, excludes, c);
      }
      assert r[0].NoTags?;
    }
  }

  /** When something lies in the body: one Traces per contained trace entry
      in list order, then one Exempt per contained exclude entry in list
      order, nothing merged or dropped. */
  lemma AnnotateLayout(d: Decl, traces: seq<StoredComment>, excludes: seq<StoredComment>)
    requires d.hasBody && SelectKind(d).Some?
    requires Contained(d.bodyRange, traces) != [] || Contained(d.bodyRange, excludes) != []
    ensures |Annotate(d, traces, excludes)|
            == |Contained(d.bodyRange, traces)| + |Contained(d.bodyRange, excludes)|
    ensures forall i :: 0 <= i < |Contained(d.bodyRange, traces)| ==>
              Annotate(d, traces, excludes)[i]
              == Traces(d.loc, SelectKind(d).value, d.qualName, Contained(d.bodyRange, traces)[i].payload)
    ensures forall j :: |Contained(d.bodyRange, traces)| <= j < |Annotate(d, traces, excludes)| ==>
              Annotate(d, traces, excludes)[j]
              == Exempt(d.loc, SelectKind(d).value, d.qualName,
                        Contained(d.bodyRange, excludes)[j - |Contained(d.bodyRange, traces)|].payload)
  {
    var k := SelectKind(d).value;
    var ct, cx := Contained(d.bodyRange, traces), Contained(d.bodyRange, excludes);
    var r := Annotate(d, traces, excludes);
    AnnotateFound(d, k, traces, excludes);
    DiagsLayout(r, d, k, ct, cx);
    forall i | 0 <= i < |ct| ensures r[i] == Traces(d.loc, k, d.qualName, ct[i].payload) {
    }
    forall j | |ct| <= j < |r| ensures r[j] == Exempt(d.loc, k, d.qualName, cx[j - |ct|].payload) {
    }
  }

  /** When something lies in the body, the diagnostics are exactly those found. */
  lemma AnnotateFound(d: Decl, k: Kind, traces: seq<StoredComment>, excludes: seq<StoredComment>)
    requires d.hasBody && SelectKind(d) == Some(k)
    requires Contained(d.bodyRange, traces) != [] || Contained(d.bodyRange, excludes) != []
    ensures Annotate(d, traces, excludes)
            == TraceDiags(d, k, Contained(d.bodyRange, traces))
               + ExemptDiags(d, k, Contained(d.bodyRange, excludes))
  {
    AnnotateProcessed(d, k, traces, excludes, true);
    assert TraceDiags(d, k, Contained(d.bodyRange, traces))
           + ExemptDiags(d, k, Contained(d.bodyRange, excludes)) + []
        == TraceDiags(d, k, Contained(d.bodyRange, traces))
           + ExemptDiags(d, k, Contained(d.bodyRange, excludes));
  }

  lemma DiagsLayout(r: seq<Diagnostic>, d: Decl, k: Kind, ct: seq<StoredComment>, cx: seq<StoredComment>)
    requires r == TraceDiags(d, k, ct) + ExemptDiags(d, k, cx)
    ensures |r| == |ct| + |cx|
    ensures forall i :: 0 <= i < |ct| ==> r[i] == Traces(d.loc, k, d.qualName, ct[i].payload)
    ensures forall j :: |ct| <= j < |r| ==> r[j] == Exempt(d.loc, k, d.qualName, cx[j - |ct|].payload)
  {
  }

  /** Whatever the order in the file, no Traces follows an Exempt. */
  lemma AnnotateTracesFirst(d: Decl, traces: seq<StoredComment>, excludes: seq<StoredComment>)
    ensures var r := Annotate(d, traces, excludes);
            forall i, j :: 0 <= i < j < |r| && r[i].Exempt? ==> !r[j].Traces?
  {
  }

  /** Every diagnostic is at the declaration's location and carries its kind
      and qualified name. */
  lemma AnnotateAtDeclaration(d: Decl, traces: seq<StoredComment>, excludes: seq<StoredComment>)
    ensures forall diag :: diag in Annotate(d, traces, excludes) ==>
              diag.loc == d.loc && diag.name == d.qualName && SelectKind(d) == Some(diag.kind)
  {
  }

  /** Containment is plain nesting, so a trace comment inside a body nested in
      another body is reported for both declarations. */
  lemma NestedBodiesShareTraces(outer: Decl, inner: Decl, traces: seq<StoredComment>,
                                excludes: seq<StoredComment>, c: StoredComment)
    requires outer.hasBody && SelectKind(outer).Some?
    requires inner.hasBody && SelectKind(inner).Some?
    requires FullyContains(outer.bodyRange, inner.bodyRange)
    requires c in traces && FullyContains(inner.bodyRange, c.range)
    ensures Traces(inner.loc, SelectKind(inner).value, inner.qualName, c.payload)
              in Annotate(inner, traces, excludes)
    ensures Traces(outer.loc, SelectKind(outer).value, outer.qualName, c.payload)
              in Annotate(outer, traces, excludes)
  {
    FullyContainsTransitive(outer.bodyRange, inner.bodyRange, c.range);
    ContainedMembers(inner.bodyRange, traces, c);
    ContainedMembers(outer.bodyRange, traces, c);
    var ci := Contained(inner.bodyRange, traces);
    var co := Contained(outer.bodyRange, traces);
    var i :| 0 <= i < |ci| && ci[i] == c;
    var j :| 0 <= j < |co| && co[j] == c;
    assert Annotate(inner, traces, excludes)[i]
        == Traces(inner.loc, SelectKind(inner).value, inner.qualName, c.payload);
    assert Annotate(outer, traces, excludes)[j]
        == Traces(outer.loc, SelectKind(outer).value, outer.qualName, c.payload);
  }

  // ---------------------------------------------------------------------------
  // The check
  // ---------------------------------------------------------------------------

  /** The check: it owns the comment handler and collects the diagnostics it
      emits, in emission order. */
  class TracingCheck {
    const handler: TracingCommentHandler
    var emitted: seq<Diagnostic>

    constructor ()
      ensures fresh(handler) && handler.Valid() && handler.seen == []
      ensures emitted == []
    {
      handler := new TracingCommentHandler();
      emitted := [];
    }

    /** Annotate one matched function declaration with the comments the
        handler holds. */
    method Check(d: Decl)
      modifies this
      ensures emitted == old(emitted) + Annotate(d, handler.traceComments, handler.excludeComments)
    {
      if !d.hasBody {
        return;
      }
      var kind := SelectKind(d);
      if kind.None? {
        assert Annotate(d, handler.traceComments, handler.excludeComments) == [];
        return;
      }
      var k := kind.value;
      var body := d.bodyRange;

      ghost var start := emitted;
      var hasTracing := false;
      var traces := handler.traceComments;
      ghost var ct: seq<StoredComment> := [];
      var i := 0;
      while i < |traces|
        invariant 0 <= i <= |traces|
        invariant ct == Contained(body, traces[..i])
        invariant emitted == start + TraceDiags(d, k, ct)
        invariant hasTracing <==> ct != []
      {
        ContainedStep(body, traces, i);
        if FullyContains(body, traces[i].range) {
          TraceDiagsSnoc(d, k, ct, traces[i]);
          AppendAssoc(start, TraceDiags(d, k, ct), [Traces(d.loc, k, d.qualName, traces[i].payload)]);
          emitted := emitted + [Traces(d.loc, k, d.qualName, traces[i].payload)];
          hasTracing := true;
          ct := ct + [traces[i]];
        }
        i := i + 1;
      }
      assert traces[..i] == traces;
      ghost var traced := emitted;

      var excludes := handler.excludeComments;
      ghost var cx: seq<StoredComment> := [];
      var j := 0;
      while j < |excludes|
        invariant 0 <= j <= |excludes|
        invariant cx == Contained(body, excludes[..j])
        invariant emitted == traced + ExemptDiags(d, k, cx)
        invariant hasTracing <==> ct != [] || cx != []
      {
        ContainedStep(body, excludes, j);
        if FullyContains(body, excludes[j].range) {
          ExemptDiagsSnoc(d, k, cx, excludes[j]);
          AppendAssoc(traced, ExemptDiags(d, k, cx), [Exempt(d.loc, k, d.qualName, excludes[j].payload)]);
          emitted := emitted + [Exempt(d.loc, k, d.qualName, excludes[j].payload)];
          hasTracing := true;
          cx := cx + [excludes[j]];
        }
        j := j + 1;
      }
      assert excludes[..j] == excludes;

      ghost var tail := if hasTracing then [] else [NoTags(d.loc, k, d.qualName)];
      AnnotateProcessed(d, k, traces, excludes, hasTracing);
      AppendAssoc(start, TraceDiags(d, k, ct), ExemptDiags(d, k, cx));
      AppendAssoc(start, TraceDiags(d, k, ct) + ExemptDiags(d, k, cx), tail);
      if !hasTracing {
        emitted := emitted + [NoTags(d.loc, k, d.qualName)];
      }
      assert emitted == start + (TraceDiags(d, k, ct) + ExemptDiags(d, k, cx) + tail);
    }
  }

  // ---------------------------------------------------------------------------
  // The scenarios of the check's regression test
  // ---------------------------------------------------------------------------

  /** A function whose body holds a trace comment: the space after the colon
      stays in the payload, so the message shows two spaces after "to". */
  lemma TracedFunctionScenario()
    ensures var comment := RawComment("// lobster-trace: cb-12345, tex-potato", SourceRange(20, 57));
            var d := Decl(true, SourceRange(13, 75), 6, "kitten::test2",
                          false, false, false, false);
            var r := Annotate(d, Entries(Trace, [comment]), Entries(Exclude, [comment]));
            |r| == 1 && Render(r[0]) == "function kitten::test2 traces to  cb-12345, tex-potato"
  {
    var d := Decl(true, SourceRange(13, 75), 6, "kitten::test2", false, false, false, false);
    var stored := StoredComment(SourceRange(20, 57), " cb-12345, tex-potato");
    TracedCommentStored();
    assert Contained(d.bodyRange, [stored]) == [stored];
    TracedMessage();
  }

  lemma TracedCommentStored()
    ensures var comment := RawComment("// lobster-trace: cb-12345, tex-potato", SourceRange(20, 57));
            Entries(Trace, [comment]) == [StoredComment(SourceRange(20, 57), " cb-12345, tex-potato")]
            && Entries(Exclude, [comment]) == []
  {
    var text := "// lobster-trace: cb-12345, tex-potato";
    assert text[..TraceLen] == TracePrefix;
    assert text[TraceLen..] == " cb-12345, tex-potato";
    assert Classify(text) == Tagged(Trace, " cb-12345, tex-potato");
  }

  lemma TracedMessage()
    ensures Render(Traces(6, Function, "kitten::test2", " cb-12345, tex-potato"))
            == "function kitten::test2 traces to  cb-12345, tex-potato"
  {
    assert "function" + " " == "function ";
    assert "function " + "kitten::test2" == "function kitten::test2";
    assert "function kitten::test2" + " traces to " == "function kitten::test2 traces to ";
    assert "function kitten::test2 traces to " + " cb-12345, tex-potato"
        == "function kitten::test2 traces to  cb-12345, tex-potato";
  }

  /** The entry point with no comments in its body. */
  lemma MainScenario()
    ensures var d := Decl(true, SourceRange(32, 45), 4, "main", true, false, false, false);
            Annotate(d, [], []) == [NoTags(4, MainFunction, "main")]
            && Render(NoTags(4, MainFunction, "main")) == "main function main has no tracing tags"
  {
    assert "main function" + " " == "main function ";
    assert "main function " + "main" == "main function main";
    assert "main function main" + " has no tracing tags" == "main function main has no tracing tags";
  }

  /** Comments that only resemble the prefixes are ignored. */
  lemma NearMissesIgnored()
    ensures Classify("//lobster-trace: x") == Ignored
    ensures Classify("/* lobster-trace: x */") == Ignored
    ensures Classify(" // lobster-exclude: x") == Ignored
  {
    assert "//lobster-trace: x"[2] != TracePrefix[2];
    assert "//lobster-trace: x"[2] != ExcludePrefix[2];
    assert "/* lobster-trace: x */"[1] != TracePrefix[1];
    assert "/* lobster-trace: x */"[1] != ExcludePrefix[1];
    assert " // lobster-exclude: x"[0] != TracePrefix[0];
    assert " // lobster-exclude: x"[0] != ExcludePrefix[0];
  }
}
