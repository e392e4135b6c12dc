/** The deep merge three migrations apply to the stored site content, and what applying it
    again and again amounts to. */
module SiteContent {
  import opened Common

  /** A JSON value: an object, or anything else kept as an uninterpreted leaf. */
  datatype Json = Obj(fields: map<string, Json>) | Leaf(text: string)

  /** The value at a path of keys, None where some key is missing or leads into a leaf. */
  ghost function At(j: Json, path: seq<string>): Option<Json> {
    if path == [] then Some(j)
    else if j.Obj? && path[0] in j.fields then At(j.fields[path[0]], path[1..])
    else None
  }

  /** Objects merge key by key; any other pair is settled by the override. */
  ghost function Merge(base: Json, over: Json): Json
    decreases over
  {
    if base.Obj? && over.Obj? then
      Obj(map key | key in base.fields.Keys + over.fields.Keys ::
            if key !in over.fields then base.fields[key]
            else if key !in base.fields then over.fields[key]
            else Merge(base.fields[key], over.fields[key]))
    else over
  }

  /** The loop over the override's items; dictionaries are the `fields` of objects. */
  method DeepMerge(base: Json, override: Json) returns (merged: Json)
    requires base.Obj? && override.Obj?
    ensures merged == Merge(base, override)
    decreases override
  {
    var fields := base.fields;
    var left := override.fields.Keys;
    while left != {}
      invariant left <= override.fields.Keys
      invariant fields.Keys == base.fields.Keys + (override.fields.Keys - left)
      invariant forall key :: key in fields ==>
        fields[key] == if key in override.fields && key !in left then Merge(base, override).fields[key]
            else base.fields[key]
      decreases left
    {
      var key :| key in left;
      var value := override.fields[key];
      if value.Obj? && key in fields && fields[key].Obj? {
        var inner := DeepMerge(fields[key], value);
        fields := fields[key := inner];
      } else {
        fields := fields[key := value];
      }
      left := left - {key};
    }
    merged := Obj(fields);
  }

  // ----- what a merge leaves at every path

  /** Some proper prefix of the path already ends in a leaf. */
  ghost predicate CutByLeaf(j: Json, path: seq<string>) {
    path != [] && (j.Leaf? || (path[0] in j.fields && CutByLeaf(j.fields[path[0]], path[1..])))
  }

  /** The override wins wherever it has a value, except that two objects merge; where it says
      nothing the base survives, unless a leaf of the override took its place. */
  ghost function Expected(base: Json, over: Json, path: seq<string>): Option<Json> {
    var b, o := At(base, path), At(over, path);
    if o.Some? then
      if b.Some? && b.value.Obj? && o.value.Obj? then Some(Merge(b.value, o.value)) else o
    else if CutByLeaf(over, path) then None
    else b
  }

  lemma {:induction false} MergeAt(base: Json, over: Json, path: seq<string>)
    ensures At(Merge(base, over), path) == Expected(base, over, path)
    decreases |path|
  {
    if path != [] && base.Obj? && over.Obj? && path[0] in base.fields && path[0] in over.fields {
      MergeAt(base.fields[path[0]], over.fields[path[0]], path[1..]);
    } else if path != [] && over.Obj? && path[0] !in over.fields {
      assert At(over, path) == None && !CutByLeaf(over, path);
    } else if path != [] && over.Obj? {
      MissingOrCut(over.fields[path[0]], path[1..]);
    }
  }

  /** Where a value has nothing and is not cut by a leaf, a key is missing on the way. */
  lemma {:induction false} MissingOrCut(j: Json, path: seq<string>)
    ensures CutByLeaf(j, path) ==> At(j, path) == None
    decreases |path|
  {
    if path != [] && j.Obj? && path[0] in j.fields {
      MissingOrCut(j.fields[path[0]], path[1..]);
    }
  }

  /** Merging a value into itself changes nothing. */
  lemma {:induction false} MergeSelf(j: Json)
    ensures Merge(j, j) == j
  {
    if j.Obj? {
      forall key | key in j.fields ensures Merge(j.fields[key], j.fields[key]) == j.fields[key] {
        MergeSelf(j.fields[key]);
      }
      assert Merge(j, j).fields == j.fields;
    }
  }

  /** Merging the same override a second time changes nothing. */
  lemma {:induction false} MergeTwice(base: Json, over: Json)
    ensures Merge(Merge(base, over), over) == Merge(base, over)
    decreases over
  {
    if base.Obj? && over.Obj? {
      var once := Merge(base, over);
      forall key | key in over.fields ensures Merge(once, over).fields[key] == once.fields[key] {
        if key in base.fields {
          MergeTwice(base.fields[key], over.fields[key]);
        } else {
          MergeSelf(over.fields[key]);
        }
      }
      assert Merge(once, over).fields == once.fields;
    } else {
      MergeSelf(over);
    }
  }

  // ----- the migrations

  const LOCALES: seq<string> := ["ar", "en"]

  /** platform_site_config's row; None stands for a NULL column. */
  datatype Row = Row(content: Option<Json>, display: Option<Json>) {
    ghost predicate Valid() {
      (content.Some? ==> content.value.Obj?) && (display.Some? ==> display.value.Obj?)
    }
  }

  /** The defaults the migrations read: an object per locale, and the display flags. */
  datatype Defaults = Defaults(locales: map<string, Json>, display: Json) {
    ghost predicate Valid() {
      display.Obj? && forall l :: l in LOCALES ==> l in locales && locales[l].Obj?
    }
  }

  function OrEmpty(j: Option<Json>): Json {
    if j.Some? then j.value else Obj(map[])
  }

  /** What is stored for a locale; anything but an object counts as empty. */
  function Stored(content: Json, locale: string): Json
    requires content.Obj?
  {
    if locale in content.fields && content.fields[locale].Obj? then content.fields[locale] else Obj(map[])
  }

  ghost function Refreshed(content: Json, d: Defaults): Json
    requires content.Obj? && d.Valid()
  {
    Obj(content.fields["ar" := Merge(Stored(content, "ar"), d.locales["ar"])]
                      ["en" := Merge(Stored(content, "en"), d.locales["en"])])
  }

  datatype Migration = M0047 | M0048 | M0049

  ghost function Migrated(row: Row, d: Defaults, m: Migration): Row
    requires row.Valid() && d.Valid()
    ensures Migrated(row, d, m).Valid()
  {
    Row(Some(Refreshed(OrEmpty(row.content), d)),
        if m == M0049 then Some(Merge(OrEmpty(row.display), d.display)) else row.display)
  }

  class SiteConfigTable {
    var row: Option<Row>

    ghost predicate Valid()
      reads this
    {
      row.Some? ==> row.value.Valid()
    }

    constructor (row: Option<Row>)
      requires row.Some? ==> row.value.Valid()
      ensures Valid() && this.row == row
    {
      this.row := row;
    }

    method RefreshContent(content: Json, d: Defaults) returns (refreshed: Json)
      requires content.Obj? && d.Valid()
      ensures refreshed == Refreshed(content, d)
    {
      var fields := content.fields;
      for i := 0 to |LOCALES|
        invariant i == 0 ==> fields == content.fields
        invariant i == 1 ==> fields == content.fields["ar" := Merge(Stored(content, "ar"), d.locales["ar"])]
        invariant i == 2 ==> Obj(fields) == Refreshed(content, d)
      {
        var locale := LOCALES[i];
        assert locale in LOCALES;
        var stored := Stored(Obj(fields), locale);
        var merged := DeepMerge(stored, d.locales[locale]);
        fields := fields[locale := merged];
      }
      refreshed := Obj(fields);
    }

    /** Shared by 0047 and 0048, whose upgrades are the same code. */
    method UpgradeContent(d: Defaults, ghost m: Migration)
      requires Valid() && d.Valid() && m != M0049
      modifies this
      ensures Valid()
      ensures row == if old(row).None? then None else Some(Migrated(old(row).value, d, m))
    {
      if row.None? {
        return;
      }
      var content := RefreshContent(OrEmpty(row.value.content), d);
      row := Some(row.value.(content := Some(content)));
    }

    method Upgrade0049(d: Defaults)
      requires Valid() && d.Valid()
      modifies this
      ensures Valid()
      ensures row == if old(row).None? then None else Some(Migrated(old(row).value, d, M0049))
    {
      if row.None? {
        return;
      }
      var content := RefreshContent(OrEmpty(row.value.content), d);
      var display := DeepMerge(OrEmpty(row.value.display), d.display);
      row := Some(Row(Some(content), Some(display)));
    }
  }

  /** What a refresh leaves at a path inside a locale: the defaults of that locale merged over what
      was stored for it, or the defaults alone where no object was stored. */
  lemma RefreshedAt(content: Json, d: Defaults, locale: string, path: seq<string>)
    requires content.Obj? && d.Valid() && (locale == "ar" || locale == "en")
    ensures locale in d.locales
    ensures At(Refreshed(content, d), [locale] + path)
            == if At(content, [locale]).Some? && At(content, [locale]).value.Obj?
               then Expected(At(content, [locale]).value, d.locales[locale], path)
               else At(d.locales[locale], path)
  {
    assert LOCALES[0] == "ar" && LOCALES[1] == "en";
    assert "ar"[0] != "en"[0];
    assert ([locale] + path)[0] == locale && ([locale] + path)[1..] == path;
    var stored := Stored(content, locale);
    MergeAt(stored, d.locales[locale], path);
    MergeIntoEmpty(d.locales[locale]);
  }

  lemma MergeIntoEmpty(j: Json)
    requires j.Obj?
    ensures Merge(Obj(map[]), j) == j
  {
    assert Merge(Obj(map[]), j).fields == j.fields;
  }

  /** Everything outside the two locales is left alone. */
  lemma RefreshLeavesRest(content: Json, d: Defaults, path: seq<string>)
    requires content.Obj? && d.Valid() && path != [] && path[0] != "ar" && path[0] != "en"
    ensures At(Refreshed(content, d), path) == At(content, path)
  {
  }

  /** What 0049 does to the display flags, path by path; the other two leave them alone. */
  lemma DisplayAt(row: Row, d: Defaults, m: Migration, path: seq<string>)
    requires row.Valid() && d.Valid()
    ensures m != M0049 ==> Migrated(row, d, m).display == row.display
    ensures m == M0049 ==>
              && Migrated(row, d, m).display.Some?
              && At(Migrated(row, d, m).display.value, path)
                 == if row.display.Some? then Expected(row.display.value, d.display, path) else At(d.display, path)
  {
    MergeAt(OrEmpty(row.display), d.display, path);
    MergeIntoEmpty(d.display);
  }

  ghost function MigrateAll(row: Row, d: Defaults, ms: seq<Migration>): Row
    requires row.Valid() && d.Valid()
    decreases |ms|
  {
    if ms == [] then row else MigrateAll(Migrated(row, d, ms[0]), d, ms[1..])
  }

  lemma RefreshTwice(content: Json, d: Defaults)
    requires content.Obj? && d.Valid()
    ensures Refreshed(Refreshed(content, d), d) == Refreshed(content, d)
  {
    var once := Refreshed(content, d);
    assert "ar" in LOCALES && "en" in LOCALES by { assert LOCALES[0] == "ar" && LOCALES[1] == "en"; }
    assert "ar" != "en" by { assert "ar"[0] != "en"[0]; }
    forall l | l == "ar" || l == "en" ensures Merge(Stored(once, l), d.locales[l]) == once.fields[l] {
      assert Stored(once, l) == once.fields[l] == Merge(Stored(content, l), d.locales[l]);
      MergeTwice(Stored(content, l), d.locales[l]);
    }
    assert Refreshed(once, d).fields == once.fields;
  }

  /** Any non-empty sequence of the three migrations, in any order and with repeats, leaves the
      content as one of them does, and the display as 0049 alone does if it occurs at all. */
  lemma {:induction false} MigrationsCollapse(row: Row, d: Defaults, ms: seq<Migration>)
    requires row.Valid() && d.Valid() && ms != []
    ensures MigrateAll(row, d, ms).content == Some(Refreshed(OrEmpty(row.content), d))
    ensures MigrateAll(row, d, ms).display
            == if M0049 in ms then Some(Merge(OrEmpty(row.display), d.display)) else row.display
    decreases |ms|
  {
    var next := Migrated(row, d, ms[0]);
    if |ms| > 1 {
      MigrationsCollapse(next, d, ms[1..]);
      RefreshTwice(OrEmpty(row.content), d);
      MergeTwice(OrEmpty(row.display), d.display);
    }
  }
}
