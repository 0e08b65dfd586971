/** The registry of post_processor/framework.py as written. Its `handler`
    appends (matcher, category, handler, order) 4-tuples, but both the
    duplicate check of `handler` and the loop of `handle_file` unpack every
    entry into three names, which raises `ValueError` as soon as the list
    holds an entry. So at most one handler can ever be registered, and once
    one is, no file can be dispatched. process.py keeps 3-tuples throughout;
    `Engine.Register` and `Engine.Dispatch` model that corrected registry. */
module Framework {

  import opened Wrappers
  import opened Errors
  import opened Patterns
  import opened Files
  import opened Engine

  /** The default of `handler`'s `order` argument. */
  const DefaultOrder: int := 65535

  datatype Entry4 = Entry4(pattern: Pattern, filter: Option<string>, handler: Handler, order: int)

  /** `handler(match_regex, category, order)` applied to a handler, as
      written: the list comprehension of the assertion unpacks the first
      stored entry into three names before it compares anything. */
  function RegisterAsWritten(reg: seq<Entry4>, pattern: Pattern, filter: Option<string>, h: Handler, order: int)
    : (r: Result<seq<Entry4>, Failure>)
    ensures r.Success? <==> |reg| == 0
    ensures r.Success? ==> r.value == [Entry4(pattern, filter, h, order)]
    ensures r.Failure? ==> r.error == UnpackError
  {
    if |reg| > 0 then Failure(UnpackError)
    else Success(reg + [Entry4(pattern, filter, h, order)])
  }

  /** `handle_file(fyle)` as written: with an empty registry the loop's
      `else` raises the "don't know how to handle" error; otherwise
      unpacking the first entry raises before any handler runs. */
  function HandleFileAsWritten(reg: seq<Entry4>, f: FileRecord): (r: Failure)
    ensures r.NoHandler? <==> |reg| == 0
    ensures |reg| > 0 ==> r == UnpackError
  {
    if |reg| == 0 then NoHandler(Category(f), SourceFilename(f)) else UnpackError
  }

  /** The defect: a second registration fails, even for a pair that is
      not yet registered, where process.py's `Register` accepts it. */
  lemma SecondRegistrationFails(h1: Handler, h2: Handler, f: FileRecord)
    ensures var first := RegisterAsWritten([], ArchivePattern, None, h1, DefaultOrder);
            first.Success? &&
            RegisterAsWritten(first.value, AnyPattern, None, h2, DefaultOrder) == Failure(UnpackError)
    ensures var first := Register([], ArchivePattern, None, h1);
            first.Success? && Register(first.value, AnyPattern, None, h2).Success?
  {
    var e := Entry(ArchivePattern, None, h1);
    assert Register([], ArchivePattern, None, h1) == Success([e]);
    assert !IsRegistered([e], AnyPattern, None) by {
      assert forall k :: 0 <= k < 1 ==> [e][k] == e;
    }
  }

  /** The defect, continued: with the one handler that could be registered,
      `handle_file` fails on every file, even one the handler's pattern
      matches, where process.py's dispatch runs the handler. */
  lemma RegisteredHandlerNeverRuns(h: Handler, f: FileRecord, w: World)
    ensures var reg := RegisterAsWritten([], AnyPattern, None, h, DefaultOrder).value;
            HandleFileAsWritten(reg, f) == UnpackError
    ensures var reg := Register([], AnyPattern, None, h).value;
            Lookup(reg, f) == Some(0) && Dispatch(reg, f, w, 1).visited == [Visit(f, 0)]
  {
    var reg := Register([], AnyPattern, None, h).value;
    assert Applies(reg[0], f);
  }
}
