/** Themes of a store: the Theme record and its `unique(theme)` key, the create
    operation, the per-store scan and the binding validator. */
module Themes {
  import opened Wrappers
  import opened Records

  datatype Theme = Theme(
    id: int,
    storeId: int,
    name: string,
    isDefault: bool,
    timeStamp: string,
    createdAt: Time,
    updatedAt: Time)

  /** The Id (the primary key by xorm's naming rule) and the `unique(theme)`
      index over StoreId and Name; IsDefault is not part of any index. */
  function ThemeKeys(t: Theme): set<Key>
  {
    PrimaryKey(t.id) + {Key("theme", [Int(t.storeId), Str(t.name)])}
  }

  function StampTheme(t: Theme, created: Time, updated: Time): Theme
  {
    t.(createdAt := created, updatedAt := updated)
  }

  const ThemeDuplicate: string := "theme name was already existing."

  const ThemeKind: EntityKind<Theme> := EntityKind("theme", ThemeKeys, StampTheme, ThemeDuplicate)

  /** `Theme.create`: both timestamps overwritten from the clock readings, then
      insert with uniqueness translation. */
  function CreateTheme(t: seq<Theme>, theme: Theme, created: Time, updated: Time,
                       fault: Option<string>): (out: CreateOutcome<Theme>)
    ensures out.row == theme.(createdAt := created, updatedAt := updated)
    ensures out.err.None? <==> fault.None? && !Collides(t, theme, ThemeKeys)
    ensures InsertTranslated(t, out.row, ThemeKeys, ThemeDuplicate, fault, out)
  {
    Create(t, theme, ThemeKind, created, updated, fault)
  }

  /** Nothing keeps a store down to one default theme: a second default theme
      with another name is accepted next to the first. */
  lemma SecondDefaultThemeAccepted(a: Theme, b: Theme, created: Time, updated: Time)
    requires a.storeId == b.storeId && a.name != b.name
    requires a.isDefault && b.isDefault
    requires a.id == 0 || a.id != b.id
    ensures CreateTheme([a], b, created, updated, None).err.None?
    ensures var t := CreateTheme([a], b, created, updated, None).table;
            |t| == 2 && t[0].storeId == t[1].storeId && t[0].isDefault && t[1].isDefault
  {
  }

  /** Two themes of one store with the same name collide whatever their
      IsDefault flags, and the second create reports already-exists. */
  lemma SameNameThemeIsAlreadyExists(a: Theme, b: Theme, created: Time, updated: Time)
    requires a.storeId == b.storeId && a.name == b.name
    ensures CreateTheme([a], b, created, updated, None).err
         == Some(AppError(UniqueViolation("theme"), ThemeDuplicate, AlreadyExistsCode))
  {
    assert !(ThemeKeys([a][0]) !! ThemeKeys(b));
  }

  /** `getThemes(storeId)`: the rows of the theme table with that StoreId, each
      as many times as the table holds it; a failed scan is `getThemes`' panic. */
  function GetThemes(t: seq<Theme>, storeId: int, fault: Option<string>): (r: Result<seq<Theme>, DbFailure>)
    ensures r.Failure? <==> fault.Some?
    ensures fault.Some? ==> r == Failure(DbFailure(fault.value))
    ensures r.Success? ==> forall th :: th in r.value ==> th in t && th.storeId == storeId
    ensures r.Success? ==>
      forall th :: th in t && th.storeId == storeId ==> multiset(r.value)[th] == multiset(t)[th]
  {
    match fault
    case Some(text) => Failure(DbFailure(text))
    case None => Success(Filter(t, (th: Theme) => th.storeId == storeId))
  }

  /** The binding framework's error record: overall and per-field messages. */
  datatype BindingErrors = BindingErrors(overall: map<string, string>, fields: map<string, string>)

  /** `Theme.Validate`: its length rules are commented out, so it records no
      error for any theme, a one-letter or empty name included. */
  function Validate(theme: Theme, errors: BindingErrors): (r: BindingErrors)
    ensures r == errors
  {
    errors
  }
}
