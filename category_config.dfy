/** The display settings of each category: its Arabic name, description,
    icon and colour gradient. A name with no entry of its own shows the
    default entry's description, icon and gradient under its own name. */
module CategoryConfig {
  import opened Common
  import opened Records

  datatype Icon = Shirt | ShoppingBag | Baby | Watch | Laptop | HomeIcon | Grid

  datatype Config = Config(ar: string, description: string, icon: Icon, gradient: string)

  const DefaultConfig: Config :=
    Config("منتجات متنوعة", "تصفح مجموعتنا المميزة", Grid, "from-gray-500 to-gray-400")

  /** `categoryConfig`, in its declaration order. */
  const Table: Entries<Config> := [
    ("Men", Config("رجالي", "أحدث صيحات الموضة للرجال", Shirt, "from-blue-500 to-cyan-400")),
    ("Women", Config("نسائي", "تألقي بأجمل الأزياء النسائية", ShoppingBag, "from-pink-500 to-rose-400")),
    ("Kids", Config("أطفال", "ملابس مريحة وأنيقة للأطفال", Baby, "from-yellow-400 to-orange-400")),
    ("Accessories", Config("إكسسوارات", "لمسات نهائية تكتمل بها أناقتك", Watch, "from-purple-500 to-indigo-400")),
    ("Electronics", Config("إلكترونيات", "أحدث التقنيات والأجهزة", Laptop, "from-slate-700 to-slate-500")),
    ("Home", Config("المنزل", "كل ما يحتاجه منزلك العصري", HomeIcon, "from-emerald-500 to-teal-400")),
    ("default", DefaultConfig)
  ]

  /** The own entries of the table have distinct names, none of them a
      prototype member. */
  lemma TableShape()
    ensures DistinctKeys(Table)
    ensures forall i :: 0 <= i < |Table| ==> Table[i].0 !in PrototypeMembers
  {
  }

  /** What `categoryConfig[name] || {...default, ar: name}` evaluates to as
      written: an own entry, an inherited prototype member, or the
      fallback. */
  datatype Lookup = OwnEntry(config: Config) | Inherited(member: string)

  function GetCategoryConfigAsWritten(name: string): (r: Lookup)
    ensures HasKey(Table, name) ==> r == OwnEntry(Get(Table, name).value)
    ensures !HasKey(Table, name) && name in PrototypeMembers ==> r == Inherited(name)
    ensures !HasKey(Table, name) && name !in PrototypeMembers ==> r == OwnEntry(DefaultConfig.(ar := name))
  {
    match Read(Table, name)
    case OwnValue(c) => OwnEntry(c)
    case InheritedMember(m) => Inherited(m)
    case Undefined => OwnEntry(DefaultConfig.(ar := name))
  }

  /** As written, a category called `constructor` or `toString` gets a
      function back instead of a configuration. */
  lemma InheritedNameEscapes()
    ensures GetCategoryConfigAsWritten("constructor") == Inherited("constructor")
    ensures GetCategoryConfigAsWritten("toString").Inherited?
  {
    assert !HasKey(Table, "constructor") by { TableShape(); }
    assert !HasKey(Table, "toString") by { TableShape(); }
  }

  /** `getCategoryConfig` as intended: only the table's own entries count. */
  function GetCategoryConfig(name: string): (r: Config)
    ensures HasKey(Table, name) ==> r == Get(Table, name).value
    ensures !HasKey(Table, name) ==> r == DefaultConfig.(ar := name)
  {
    var own := Get(Table, name);
    if own.Some? then own.value else DefaultConfig.(ar := name)
  }

  /** A name in the table gets its own entry; `default` gets the default
      entry itself. */
  lemma KnownNames(i: nat)
    requires i < |Table|
    ensures GetCategoryConfig(Table[i].0) == Table[i].1
    ensures GetCategoryConfig("default") == DefaultConfig
  {
    TableShape();
    GetAt(Table, i);
    GetAt(Table, |Table| - 1);
  }

  /** Any other name keeps the default's description, icon and gradient and
      shows itself as the Arabic name. */
  lemma UnknownName(name: string)
    requires forall i :: 0 <= i < |Table| ==> Table[i].0 != name
    ensures var c := GetCategoryConfig(name);
            && c.ar == name && c.description == DefaultConfig.description
            && c.icon == DefaultConfig.icon && c.gradient == DefaultConfig.gradient
  {
  }

  /** The code as written and the corrected lookup agree on every name that
      is not a prototype member. */
  lemma AsWrittenAgrees(name: string)
    requires name !in PrototypeMembers
    ensures GetCategoryConfigAsWritten(name) == OwnEntry(GetCategoryConfig(name))
  {
  }
}
