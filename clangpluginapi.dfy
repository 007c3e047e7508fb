/** The records and the plug-in component base shared by the components of the clang
    plug-in: token categories, raw completion tokens, token positions, the events the
    translation-unit service sends, and the attach/release state of a component. */
module ClangPluginApi {
  import opened Wrappers
  import Editor

  /** The id of a translation unit; wxNOT_FOUND (-1) when there is none. */
  type ClTranslUnitId = int

  const NotFound: int := -1

  /** The categories of `ClTokenCategory`, in declaration order, and `tcNone`. */
  datatype ClTokenCategory =
    | ClassFolder
    | Class | ClassPrivate | ClassProtected | ClassPublic
    | CtorPrivate | CtorProtected | CtorPublic
    | DtorPrivate | DtorProtected | DtorPublic
    | FuncPrivate | FuncProtected | FuncPublic
    | VarPrivate | VarProtected | VarPublic
    | MacroDef
    | Enum | EnumPrivate | EnumProtected | EnumPublic
    | Enumerator
    | Namespace
    | Typedef | TypedefPrivate | TypedefProtected | TypedefPublic
    | SymbolsFolder | VarsFolder | FuncsFolder | EnumsFolder
    | PreprocFolder | OthersFolder | TypedefFolder
    | MacroUse | MacroPrivate | MacroProtected | MacroPublic
    | MacroFolder
    | LangKeyword
    | CategoryNone

  /** The integer value the C++ enumeration gives each category. */
  function Value(c: ClTokenCategory): int {
    match c
    case ClassFolder => 0
    case Class => 1
    case ClassPrivate => 2
    case ClassProtected => 3
    case ClassPublic => 4
    case CtorPrivate => 5
    case CtorProtected => 6
    case CtorPublic => 7
    case DtorPrivate => 8
    case DtorProtected => 9
    case DtorPublic => 10
    case FuncPrivate => 11
    case FuncProtected => 12
    case FuncPublic => 13
    case VarPrivate => 14
    case VarProtected => 15
    case VarPublic => 16
    case MacroDef => 17
    case Enum => 18
    case EnumPrivate => 19
    case EnumProtected => 20
    case EnumPublic => 21
    case Enumerator => 22
    case Namespace => 23
    case Typedef => 24
    case TypedefPrivate => 25
    case TypedefProtected => 26
    case TypedefPublic => 27
    case SymbolsFolder => 28
    case VarsFolder => 29
    case FuncsFolder => 30
    case EnumsFolder => 31
    case PreprocFolder => 32
    case OthersFolder => 33
    case TypedefFolder => 34
    case MacroUse => 35
    case MacroPrivate => 36
    case MacroProtected => 37
    case MacroPublic => 38
    case MacroFolder => 39
    case LangKeyword => 40
    case CategoryNone => -1
  }

  /** The category an integer stands for, if any. */
  function FromValue(v: int): Option<ClTokenCategory> {
    if v == 0 then Some(ClassFolder)
    else if v == 1 then Some(Class)
    else if v == 2 then Some(ClassPrivate)
    else if v == 3 then Some(ClassProtected)
    else if v == 4 then Some(ClassPublic)
    else if v == 5 then Some(CtorPrivate)
    else if v == 6 then Some(CtorProtected)
    else if v == 7 then Some(CtorPublic)
    else if v == 8 then Some(DtorPrivate)
    else if v == 9 then Some(DtorProtected)
    else if v == 10 then Some(DtorPublic)
    else if v == 11 then Some(FuncPrivate)
    else if v == 12 then Some(FuncProtected)
    else if v == 13 then Some(FuncPublic)
    else if v == 14 then Some(VarPrivate)
    else if v == 15 then Some(VarProtected)
    else if v == 16 then Some(VarPublic)
    else if v == 17 then Some(MacroDef)
    else if v == 18 then Some(Enum)
    else if v == 19 then Some(EnumPrivate)
    else if v == 20 then Some(EnumProtected)
    else if v == 21 then Some(EnumPublic)
    else if v == 22 then Some(Enumerator)
    else if v == 23 then Some(Namespace)
    else if v == 24 then Some(Typedef)
    else if v == 25 then Some(TypedefPrivate)
    else if v == 26 then Some(TypedefProtected)
    else if v == 27 then Some(TypedefPublic)
    else if v == 28 then Some(SymbolsFolder)
    else if v == 29 then Some(VarsFolder)
    else if v == 30 then Some(FuncsFolder)
    else if v == 31 then Some(EnumsFolder)
    else if v == 32 then Some(PreprocFolder)
    else if v == 33 then Some(OthersFolder)
    else if v == 34 then Some(TypedefFolder)
    else if v == 35 then Some(MacroUse)
    else if v == 36 then Some(MacroPrivate)
    else if v == 37 then Some(MacroProtected)
    else if v == 38 then Some(MacroPublic)
    else if v == 39 then Some(MacroFolder)
    else if v == 40 then Some(LangKeyword)
    else if v == -1 then Some(CategoryNone)
    else None
  }

  /** Reading back the value of a category gives the category. */
  lemma FromValueOfValue(c: ClTokenCategory)
    ensures FromValue(Value(c)) == Some(c)
  {
    match c
    case ClassFolder =>
    case Class =>
    case ClassPrivate =>
    case ClassProtected =>
    case ClassPublic =>
    case CtorPrivate =>
    case CtorProtected =>
    case CtorPublic =>
    case DtorPrivate =>
    case DtorProtected =>
    case DtorPublic =>
    case FuncPrivate =>
    case FuncProtected =>
    case FuncPublic =>
    case VarPrivate =>
    case VarProtected =>
    case VarPublic =>
    case MacroDef =>
    case Enum =>
    case EnumPrivate =>
    case EnumProtected =>
    case EnumPublic =>
    case Enumerator =>
    case Namespace =>
    case Typedef =>
    case TypedefPrivate =>
    case TypedefProtected =>
    case TypedefPublic =>
    case SymbolsFolder =>
    case VarsFolder =>
    case FuncsFolder =>
    case EnumsFolder =>
    case PreprocFolder =>
    case OthersFolder =>
    case TypedefFolder =>
    case MacroUse =>
    case MacroPrivate =>
    case MacroProtected =>
    case MacroPublic =>
    case MacroFolder =>
    case LangKeyword =>
    case CategoryNone =>
  }

  /** No two categories share a value. */
  lemma FromValueRoundTrip(c: ClTokenCategory, d: ClTokenCategory)
    ensures FromValue(Value(c)) == Some(c)
    ensures Value(c) == Value(d) ==> c == d
  {
    FromValueOfValue(c);
    FromValueOfValue(d);
  }

  /** `tcNone` is -1 and every other category lies in `[tcClassFolder, tcLangKeyword]`. */
  lemma CategoryValueRange(c: ClTokenCategory)
    ensures Value(CategoryNone) == -1 && Value(ClassFolder) == 0 && Value(LangKeyword) == 40
    ensures c != CategoryNone ==> Value(ClassFolder) <= Value(c) <= Value(LangKeyword)
  {
  }

  /** The values from `tcClassFolder` to `tcLangKeyword` are each taken by a category: the
      enumerators count up without gaps. */
  lemma CategoryValuesConsecutive(v: int)
    requires Value(ClassFolder) <= v <= Value(LangKeyword)
    ensures FromValue(v).Some? && FromValue(v).value != CategoryNone && Value(FromValue(v).value) == v
  {
    if v <= 4 { ValuesTaken0To4(v); }
    else if v <= 9 { ValuesTaken5To9(v); }
    else if v <= 14 { ValuesTaken10To14(v); }
    else if v <= 19 { ValuesTaken15To19(v); }
    else if v <= 24 { ValuesTaken20To24(v); }
    else if v <= 29 { ValuesTaken25To29(v); }
    else if v <= 34 { ValuesTaken30To34(v); }
    else { ValuesTaken35To40(v); }
  }

  lemma ValuesTaken0To4(v: int)
    requires 0 <= v <= 4
    ensures FromValue(v).Some? && FromValue(v).value != CategoryNone && Value(FromValue(v).value) == v
  {
    if v == 0 { assert FromValue(0) == Some(ClassFolder); }
    else if v == 1 { assert FromValue(1) == Some(Class); }
    else if v == 2 { assert FromValue(2) == Some(ClassPrivate); }
    else if v == 3 { assert FromValue(3) == Some(ClassProtected); }
    else { assert FromValue(4) == Some(ClassPublic); }
  }

  lemma ValuesTaken5To9(v: int)
    requires 5 <= v <= 9
    ensures FromValue(v).Some? && FromValue(v).value != CategoryNone && Value(FromValue(v).value) == v
  {
    if v == 5 { assert FromValue(5) == Some(CtorPrivate); }
    else if v == 6 { assert FromValue(6) == Some(CtorProtected); }
    else if v == 7 { assert FromValue(7) == Some(CtorPublic); }
    else if v == 8 { assert FromValue(8) == Some(DtorPrivate); }
    else { assert FromValue(9) == Some(DtorProtected); }
  }

  lemma ValuesTaken10To14(v: int)
    requires 10 <= v <= 14
    ensures FromValue(v).Some? && FromValue(v).value != CategoryNone && Value(FromValue(v).value) == v
  {
    if v == 10 { assert FromValue(10) == Some(DtorPublic); }
    else if v == 11 { assert FromValue(11) == Some(FuncPrivate); }
    else if v == 12 { assert FromValue(12) == Some(FuncProtected); }
    else if v == 13 { assert FromValue(13) == Some(FuncPublic); }
    else { assert FromValue(14) == Some(VarPrivate); }
  }

  lemma ValuesTaken15To19(v: int)
    requires 15 <= v <= 19
    ensures FromValue(v).Some? && FromValue(v).value != CategoryNone && Value(FromValue(v).value) == v
  {
    if v == 15 { assert FromValue(15) == Some(VarProtected); }
    else if v == 16 { assert FromValue(16) == Some(VarPublic); }
    else if v == 17 { assert FromValue(17) == Some(MacroDef); }
    else if v == 18 { assert FromValue(18) == Some(Enum); }
    else { assert FromValue(19) == Some(EnumPrivate); }
  }

  lemma ValuesTaken20To24(v: int)
    requires 20 <= v <= 24
    ensures FromValue(v).Some? && FromValue(v).value != CategoryNone && Value(FromValue(v).value) == v
  {
    if v == 20 { assert FromValue(20) == Some(EnumProtected); }
    else if v == 21 { assert FromValue(21) == Some(EnumPublic); }
    else if v == 22 { assert FromValue(22) == Some(Enumerator); }
    else if v == 23 { assert FromValue(23) == Some(Namespace); }
    else { assert FromValue(24) == Some(Typedef); }
  }

  lemma ValuesTaken25To29(v: int)
    requires 25 <= v <= 29
    ensures FromValue(v).Some? && FromValue(v).value != CategoryNone && Value(FromValue(v).value) == v
  {
    if v == 25 { assert FromValue(25) == Some(TypedefPrivate); }
    else if v == 26 { assert FromValue(26) == Some(TypedefProtected); }
    else if v == 27 { assert FromValue(27) == Some(TypedefPublic); }
    else if v == 28 { assert FromValue(28) == Some(SymbolsFolder); }
    else { assert FromValue(29) == Some(VarsFolder); }
  }

  lemma ValuesTaken30To34(v: int)
    requires 30 <= v <= 34
    ensures FromValue(v).Some? && FromValue(v).value != CategoryNone && Value(FromValue(v).value) == v
  {
    if v == 30 { assert FromValue(30) == Some(FuncsFolder); }
    else if v == 31 { assert FromValue(31) == Some(EnumsFolder); }
    else if v == 32 { assert FromValue(32) == Some(PreprocFolder); }
    else if v == 33 { assert FromValue(33) == Some(OthersFolder); }
    else { assert FromValue(34) == Some(TypedefFolder); }
  }

  lemma ValuesTaken35To40(v: int)
    requires 35 <= v <= 40
    ensures FromValue(v).Some? && FromValue(v).value != CategoryNone && Value(FromValue(v).value) == v
  {
    if v == 35 { assert FromValue(35) == Some(MacroUse); }
    else if v == 36 { assert FromValue(36) == Some(MacroPrivate); }
    else if v == 37 { assert FromValue(37) == Some(MacroProtected); }
    else if v == 38 { assert FromValue(38) == Some(MacroPublic); }
    else if v == 39 { assert FromValue(39) == Some(MacroFolder); }
    else { assert FromValue(40) == Some(LangKeyword); }
  }



  /** `ClToken`: one raw completion result of the translation-unit service. */
  datatype ClToken = ClToken(id: int, category: int, weight: int, name: string)

  /** `ClToken(nm, _id, _weight, categ)`. */
  function NewClToken(nm: string, id: int, weight: int, categ: int): (t: ClToken)
    ensures t.name == nm && t.id == id && t.weight == weight && t.category == categ
  {
    ClToken(id, categ, weight, nm)
  }

  /** `ClTokenPosition`: a 1-based line and column. */
  datatype ClTokenPosition = ClTokenPosition(line: u32, column: u32)

  function NewClTokenPosition(ln: u32, col: u32): (p: ClTokenPosition)
    ensures p.line == ln && p.column == col
  {
    ClTokenPosition(ln, col)
  }

  /** The event types the service sends. */
  datatype ClangEventType =
    | TranslationUnitCreated
    | ReparseFinished
    | GetCodeCompleteFinished
    | GetOccurrencesFinished

  /** `ClangEvent`: a notification from the translation-unit service. */
  datatype ClangEvent = ClangEvent(
    eventType: ClangEventType,
    translationUnitId: ClTranslUnitId,
    filename: string,
    location: ClTokenPosition,
    occurrences: seq<(int, int)>,
    completions: seq<ClToken>)
  {
    function GetTranslationUnitId(): ClTranslUnitId { translationUnitId }
    function GetOccurrencesResults(): seq<(int, int)> { occurrences }
    function GetCodeCompletionResults(): seq<ClToken> { completions }
  }

  /** The constructor taking only an id and a file name: location (0, 0), no results. */
  function NewEvent(evtId: ClangEventType, id: ClTranslUnitId, filename: string): (e: ClangEvent)
    ensures e.eventType == evtId && e.GetTranslationUnitId() == id && e.filename == filename
    ensures e.location == ClTokenPosition(0, 0)
    ensures e.GetOccurrencesResults() == [] && e.GetCodeCompletionResults() == []
  {
    ClangEvent(evtId, id, filename, ClTokenPosition(0, 0), [], [])
  }

  /** The constructor carrying the occurrences of a symbol. */
  function NewOccurrencesEvent(evtId: ClangEventType, id: ClTranslUnitId, filename: string,
                               pos: ClTokenPosition, occurrences: seq<(int, int)>): (e: ClangEvent)
    ensures e.eventType == evtId && e.GetTranslationUnitId() == id && e.filename == filename
    ensures e.location == pos
    ensures e.GetOccurrencesResults() == occurrences && e.GetCodeCompletionResults() == []
  {
    ClangEvent(evtId, id, filename, pos, occurrences, [])
  }

  /** The constructor carrying completion results. */
  function NewCompletionEvent(evtId: ClangEventType, id: ClTranslUnitId, filename: string,
                              pos: ClTokenPosition, completions: seq<ClToken>): (e: ClangEvent)
    ensures e.eventType == evtId && e.GetTranslationUnitId() == id && e.filename == filename
    ensures e.location == pos
    ensures e.GetOccurrencesResults() == [] && e.GetCodeCompletionResults() == completions
  {
    ClangEvent(evtId, id, filename, pos, [], completions)
  }

  /** The copy constructor. */
  function CopyEvent(other: ClangEvent): (e: ClangEvent)
    ensures e.eventType == other.eventType
    ensures e.GetTranslationUnitId() == other.GetTranslationUnitId()
    ensures e.filename == other.filename && e.location == other.location
    ensures e.GetOccurrencesResults() == other.GetOccurrencesResults()
    ensures e.GetCodeCompletionResults() == other.GetCodeCompletionResults()
  {
    ClangEvent(other.eventType, other.translationUnitId, other.filename, other.location,
               other.occurrences, other.completions)
  }

  /** `cbCodeCompletionPlugin::CCToken`, the candidate handed to the editor's completion
      list (cbplugin.h is not part of this model; its fields are as the engine uses them). */
  datatype CCToken = CCToken(id: int, category: int, weight: int, displayName: string, name: string)

  /** `CCToken(_id, dispNm, nm, _weight, categ)`. */
  function NewCCToken(id: int, dispNm: string, nm: string, weight: int, categ: int): (t: CCToken)
    ensures t.id == id && t.displayName == dispNm && t.name == nm
    ensures t.weight == weight && t.category == categ
  {
    CCToken(id, categ, weight, dispNm, nm)
  }

  /** `cbCodeCompletionPlugin::CCProviderStatus`. */
  datatype CCProviderStatus = Active | Inactive | Universal

  /** The identity of an `IClangPlugin` object. */
  datatype PluginRef = PluginRef(handle: nat)

  /** `ClangPluginComponent`: the base of the plug-in's components, holding the plug-in it
      is attached to (`None` is the null pointer). */
  class ClangPluginComponent {
    var plugin: Option<PluginRef>

    /** The source leaves the pointer uninitialised; the model starts detached. */
    constructor ()
      ensures plugin == None
    {
      plugin := None;
    }

    predicate IsAttached()
      reads this
    {
      plugin.Some?
    }

    method OnAttach(p: Option<PluginRef>)
      modifies this
      ensures plugin == p
      ensures IsAttached() <==> p.Some?
    {
      plugin := p;
    }

    method OnRelease(p: Option<PluginRef>)
      modifies this
      ensures plugin == None
      ensures !IsAttached()
    {
      plugin := None;
    }

    /** The default `BuildToolBar` adds nothing. */
    function BuildToolBar(): (added: bool)
      ensures !added
    {
      false
    }

    /** The default `GetProviderStatusFor`: the component provides no completion. */
    function GetProviderStatusFor(ed: Editor.EditorState): (s: CCProviderStatus)
      ensures s == Inactive
    {
      Inactive
    }

    /** The default `GetAutocompList`: no candidates. */
    function GetAutocompList(isAuto: bool, ed: Editor.EditorState, tknStart: int, tknEnd: int): (r: seq<CCToken>)
      ensures r == []
    {
      []
    }
  }
}
