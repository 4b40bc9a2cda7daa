/**
 * The game's `Item` (experiment.py): an instance that shares one item-type
 * configuration dictionary with every other item of its type. Only the
 * instance's own attributes (`id`, `creation_timestamp`, `position`,
 * `remaining_uses` and any extra attribute) live on the item; every other
 * attribute is read through to the configuration, which the item never lets
 * anyone overwrite. Attribute values that are not numbers, strings,
 * booleans or positions are out of this model.
 */
module ExperimentItem {
  import opened Base

  /** An attribute value. */
  datatype Val = VInt(i: int) | VReal(r: real) | VStr(s: string) | VBool(b: bool) | VPos(p: Pos) | VNone

  /**
   * One item-type configuration dictionary, with the keys the game reads
   * as fields; `other` holds every further key of the dictionary.
   */
  datatype ItemType = ItemType(
    itemId: string, name: string, calories: int, nUses: int, publicGood: real,
    interactive: bool, respawn: bool, maturationThreshold: real, plantingCost: real,
    limitQuantity: bool, autoTransitionTime: Option<real>, autoTransitionTarget: Option<string>,
    other: map<string, Val>)

  /** The keys every configuration carries. */
  const StandardKeys: set<string> := {
    "item_id", "name", "calories", "n_uses", "public_good", "interactive", "respawn",
    "maturation_threshold", "planting_cost", "limit_quantity"}

  /** `set(item_config.keys())` */
  function ConfigKeys(t: ItemType): set<string> {
    StandardKeys
      + (if t.autoTransitionTime.Some? then {"auto_transition_time"} else {})
      + (if t.autoTransitionTarget.Some? then {"auto_transition_target"} else {})
      + t.other.Keys
  }

  /** `item_config.get(key)`, with `None` for a missing key. */
  function ConfigValue(t: ItemType, key: string): (v: Option<Val>)
    ensures v.Some? <==> key in ConfigKeys(t)
  {
    if key == "item_id" then Some(VStr(t.itemId))
    else if key == "name" then Some(VStr(t.name))
    else if key == "calories" then Some(VInt(t.calories))
    else if key == "n_uses" then Some(VInt(t.nUses))
    else if key == "public_good" then Some(VReal(t.publicGood))
    else if key == "interactive" then Some(VBool(t.interactive))
    else if key == "respawn" then Some(VBool(t.respawn))
    else if key == "maturation_threshold" then Some(VReal(t.maturationThreshold))
    else if key == "planting_cost" then Some(VReal(t.plantingCost))
    else if key == "limit_quantity" then Some(VBool(t.limitQuantity))
    else if key == "auto_transition_time" && t.autoTransitionTime.Some? then Some(VReal(t.autoTransitionTime.value))
    else if key == "auto_transition_target" && t.autoTransitionTarget.Some? then Some(VStr(t.autoTransitionTarget.value))
    else if key in t.other then Some(t.other[key])
    else None
  }

  /**
   * An item. Its `item_id` is the configuration's; `position` is `None`
   * while a player carries it; `extra` holds attributes set later under
   * names of its own.
   */
  datatype Item = Item(
    config: ItemType, id: int, creationTimestamp: real, position: Option<Pos>,
    remainingUses: int, extra: map<string, Val>)

  function ItemId(it: Item): string {
    it.config.itemId
  }

  /** The attributes whose first assignment is their only one. */
  const FixedNames: set<string> := {"item_config", "id", "creation_timestamp", "item_id"}

  /**
   * The shape every constructed item keeps: the configuration names none of
   * the instance's own attributes, and no extra attribute shadows a
   * configuration key or an instance attribute.
   */
  predicate Sound(it: Item) {
    "position" !in ConfigKeys(it.config) && "remaining_uses" !in ConfigKeys(it.config) &&
    (forall k :: k in it.extra ==> k !in ConfigKeys(it.config)) &&
    (forall k :: k in it.extra ==> k !in FixedNames && k != "position" && k != "remaining_uses")
  }

  /**
   * The configuration has a key named like one of the instance's own
   * attributes. The standard keys and the transition keys are other names,
   * so only the further keys can (NamesInstanceFieldMeaning).
   */
  predicate NamesInstanceField(t: ItemType) {
    "position" in t.other || "remaining_uses" in t.other
  }

  lemma NamesInstanceFieldMeaning(t: ItemType)
    ensures NamesInstanceField(t) <==> "position" in ConfigKeys(t) || "remaining_uses" in ConfigKeys(t)
  {
  }

  /**
   * `Item(item_config, id=..., creation_timestamp=..., position=...,
   * remaining_uses=...)`: the dataclass assigns each field through
   * `__setattr__`, which refuses `position` and `remaining_uses` when the
   * configuration has keys of those names; `__post_init__` copies
   * `item_id` and defaults `remaining_uses` to `n_uses`. NewItemView and
   * NewItemSound state what it makes.
   */
  function NewItem(config: ItemType, id: int, created: real, position: Option<Pos>, remainingUses: Option<int>): Result<Item> {
    if NamesInstanceField(config) then Err("TypeError")
    else
      var uses := if remainingUses.Some? then remainingUses.value else config.nUses;
      Ok(Item(config, id, created, position, uses, map[]))
  }

  /** Every item construction makes is sound. */
  lemma NewItemSound(config: ItemType, id: int, created: real, position: Option<Pos>, remainingUses: Option<int>)
    ensures var r := NewItem(config, id, created, position, remainingUses);
      r.Ok? ==> Sound(r.value)
  {
    NamesInstanceFieldMeaning(config);
  }

  /**
   * `getattr(item, name)` for any name but `item_config`: the instance's
   * own attributes first, then the shared configuration, else
   * `AttributeError`.
   */
  function GetAttr(it: Item, name: string): Result<Val>
    requires name != "item_config"
  {
    if name == "id" then Ok(VInt(it.id))
    else if name == "creation_timestamp" then Ok(VReal(it.creationTimestamp))
    else if name == "item_id" then Ok(VStr(ItemId(it)))
    else if name == "position" then Ok(if it.position.Some? then VPos(it.position.value) else VNone)
    else if name == "remaining_uses" then Ok(VInt(it.remainingUses))
    else if name in it.extra then Ok(it.extra[name])
    else if ConfigValue(it.config, name).Some? then Ok(ConfigValue(it.config, name).value)
    else Err("AttributeError")
  }

  /** A value `setattr(item, name, value)` can store in the typed instance attributes. */
  predicate Fits(name: string, v: Val) {
    (name == "position" ==> v.VPos? || v.VNone?) && (name == "remaining_uses" ==> v.VInt?)
  }

  /**
   * `setattr(item, name, value)` on a constructed item: the fixed
   * attributes and every configuration key raise `TypeError`; anything else
   * is stored on the instance.
   */
  function SetAttr(it: Item, name: string, v: Val): Result<Item>
    requires Fits(name, v)
  {
    if name in FixedNames || name in ConfigKeys(it.config) then Err("TypeError")
    else if name == "position" then Ok(it.(position := if v.VPos? then Some(v.p) else None))
    else if name == "remaining_uses" then Ok(it.(remainingUses := v.i))
    else Ok(it.(extra := it.extra[name := v]))
  }

  /**
   * A freshly made item reads every configuration key it does not shadow
   * from the configuration, takes its `item_id` from there, and starts with
   * the given uses or else the configured `n_uses`. Construction fails only
   * on a configuration that names `position` or `remaining_uses`.
   */
  lemma NewItemView(config: ItemType, id: int, created: real, position: Option<Pos>, uses: Option<int>, key: string)
    requires key in ConfigKeys(config) && key !in {"id", "creation_timestamp", "item_config"}
    ensures var r := NewItem(config, id, created, position, uses);
      (r.Err? <==> "position" in ConfigKeys(config) || "remaining_uses" in ConfigKeys(config)) &&
      (r.Ok? ==>
        GetAttr(r.value, key) == Ok(ConfigValue(config, key).value) &&
        GetAttr(r.value, "item_id") == Ok(VStr(config.itemId)) &&
        r.value.remainingUses == (if uses.Some? then uses.value else config.nUses) &&
        r.value.id == id && r.value.position == position)
  {
    var r := NewItem(config, id, created, position, uses);
    NamesInstanceFieldMeaning(config);
    if r.Ok? {
      assert key != "position" && key != "remaining_uses";
      if key == "item_id" {
        assert ConfigValue(config, key) == Some(VStr(config.itemId));
      }
    }
  }

  /** No configuration key and no fixed attribute can be assigned. */
  lemma ConfigReadOnly(it: Item, name: string, v: Val)
    requires Fits(name, v)
    requires name in ConfigKeys(it.config) || name in FixedNames
    ensures SetAttr(it, name, v) == Err("TypeError")
  {
  }

  /**
   * A successful assignment is read back as the assigned value, keeps the
   * item sound, and leaves every configuration-backed attribute as it was:
   * the shared configuration is a read-only view.
   */
  lemma SetThenGet(it: Item, name: string, v: Val, key: string)
    requires Sound(it) && Fits(name, v) && name != "item_config" && key != "item_config"
    requires SetAttr(it, name, v).Ok?
    ensures var r := SetAttr(it, name, v).value;
      Sound(r) && r.config == it.config &&
      GetAttr(r, name) == Ok(v) &&
      (key in ConfigKeys(it.config) ==> GetAttr(r, key) == GetAttr(it, key))
  {
    var r := SetAttr(it, name, v).value;
    assert name !in ConfigKeys(it.config) && name !in FixedNames;
    if key in ConfigKeys(it.config) {
      assert key != name;
      assert key != "position" && key != "remaining_uses";
      assert key !in r.extra;
    }
  }

  /** Two sound items of one type read the same value for every configuration key they do not shadow. */
  lemma SharedConfig(a: Item, b: Item, key: string)
    requires Sound(a) && Sound(b) && a.config == b.config
    requires key in ConfigKeys(a.config) && key !in {"id", "creation_timestamp", "item_config"}
    ensures GetAttr(a, key) == GetAttr(b, key) == Ok(ConfigValue(a.config, key).value)
  {
    assert key !in a.extra && key !in b.extra;
    assert key != "position" && key != "remaining_uses";
    if key == "item_id" {
      assert ConfigValue(a.config, key) == Some(VStr(a.config.itemId));
    }
  }

  /**
   * An item's state dictionary, as `item.serialize()` writes it and
   * `deserialize` reads it back; `None` marks an absent key (and, for
   * `position`, the `null` of a carried item).
   */
  datatype ItemState = ItemState(
    id: Option<int>, itemId: Option<string>, position: Option<Pos>, maturity: Option<real>,
    creationTimestamp: Option<real>, remainingUses: Option<int>)

  /** `item.serialize()`, with the item's maturity (which depends on the clock) given. */
  function SerializeItem(it: Item, maturity: real): (s: ItemState)
    ensures s.id == Some(it.id) && s.itemId == Some(ItemId(it)) && s.position == it.position
    ensures s.maturity == Some(maturity) && s.creationTimestamp == Some(it.creationTimestamp) && s.remainingUses == Some(it.remainingUses)
  {
    ItemState(Some(it.id), Some(ItemId(it)), it.position, Some(maturity), Some(it.creationTimestamp), Some(it.remainingUses))
  }
}
