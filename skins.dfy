/** Skin catalogs for the shank and the apple, lookup of a skin's sprite
    with a fallback to the first entry, and the persisted skin choice in a
    string key-value store. */
module Skins {

  datatype Option<T> = None | Some(value: T)

  datatype SkinOption = SkinOption(id: string, name: string, sprite: string)

  const SHANK_SKINS: seq<SkinOption> := [
    SkinOption("default", "Classic", "/assets/generated/shank-sprite.dim_256x256.png"),
    SkinOption("skin1", "Neon", "/assets/generated/shank-sprite-skin-1.dim_256x256.png"),
    SkinOption("skin2", "Cyber", "/assets/generated/shank-sprite-skin-2.dim_256x256.png"),
    SkinOption("skin3", "Retro", "/assets/generated/shank-sprite-skin-3.dim_256x256.png")
  ]

  const APPLE_SKINS: seq<SkinOption> := [
    SkinOption("default", "Classic", "/assets/generated/apple-sprite.dim_128x128.png"),
    SkinOption("skin1", "Golden", "/assets/generated/apple-sprite-skin-1.dim_128x128.png"),
    SkinOption("skin2", "Crystal", "/assets/generated/apple-sprite-skin-2.dim_128x128.png")
  ]

  const SHANK_SKIN_KEY: string := "shank-game-shank-skin"
  const APPLE_SKIN_KEY: string := "shank-game-apple-skin"

  /** The id a load falls back to when nothing (or the empty string) is stored. */
  const DEFAULT_SKIN: string := "default"

  /** The position of the first entry whose id is `id`, or -1 when none has. */
  function FindIndex(skins: seq<SkinOption>, id: string): (k: int)
    ensures -1 <= k < |skins|
    ensures k == -1 <==> forall i :: 0 <= i < |skins| ==> skins[i].id != id
    ensures k >= 0 ==> skins[k].id == id && forall j :: 0 <= j < k ==> skins[j].id != id
  {
    if skins == [] then -1
    else if skins[0].id == id then 0
    else
      var k := FindIndex(skins[1..], id);
      if k == -1 then -1 else k + 1
  }

  /** Array.find on the id: the first entry whose id is `id`, if any. */
  function Find(skins: seq<SkinOption>, id: string): (r: Option<SkinOption>)
    ensures r.None? <==> forall i :: 0 <= i < |skins| ==> skins[i].id != id
    ensures r.Some? ==> r.value.id == id && r.value in skins
    ensures r.Some? ==> exists k :: 0 <= k < |skins| && r.value == skins[k] && forall j :: 0 <= j < k ==> skins[j].id != id
  {
    var k := FindIndex(skins, id);
    if k == -1 then None else Some(skins[k])
  }

  /** `skin?.sprite || skins[0].sprite`: the found skin's sprite unless the
      skin is missing or its sprite is the empty string. */
  function SpriteFor(skins: seq<SkinOption>, id: string): (r: string)
    requires |skins| > 0
    ensures exists i :: 0 <= i < |skins| && r == skins[i].sprite
    ensures (forall i :: 0 <= i < |skins| ==> skins[i].id != id) ==> r == skins[0].sprite
  {
    match Find(skins, id)
    case None => skins[0].sprite
    case Some(skin) => if skin.sprite != "" then skin.sprite else skins[0].sprite
  }

  function GetShankSprite(skinId: string): string {
    SpriteFor(SHANK_SKINS, skinId)
  }

  function GetAppleSprite(skinId: string): string {
    SpriteFor(APPLE_SKINS, skinId)
  }

  /** The ids of a catalog are pairwise distinct and its sprites non-empty. */
  predicate WellFormedCatalog(skins: seq<SkinOption>) {
    && (forall i, j :: 0 <= i < j < |skins| ==> skins[i].id != skins[j].id)
    && (forall i :: 0 <= i < |skins| ==> skins[i].sprite != "")
  }

  /** In a catalog with distinct ids and non-empty sprites, looking up an
      entry's id yields that entry's sprite. */
  lemma SpriteOfListedSkin(skins: seq<SkinOption>, i: int)
    requires WellFormedCatalog(skins) && 0 <= i < |skins|
    ensures SpriteFor(skins, skins[i].id) == skins[i].sprite
  {
    var k := FindIndex(skins, skins[i].id);
    assert k == i;
  }

  lemma ShankCatalogWellFormed()
    ensures WellFormedCatalog(SHANK_SKINS)
  {
  }

  lemma AppleCatalogWellFormed()
    ensures WellFormedCatalog(APPLE_SKINS)
  {
  }

  /** Each listed shank skin draws its own sprite; any other id draws the
      classic one; the result is always a sprite of the catalog. */
  lemma ShankSpriteLookup(skinId: string)
    ensures forall i :: 0 <= i < |SHANK_SKINS| && SHANK_SKINS[i].id == skinId ==>
              GetShankSprite(skinId) == SHANK_SKINS[i].sprite
    ensures (forall i :: 0 <= i < |SHANK_SKINS| ==> SHANK_SKINS[i].id != skinId) ==>
              GetShankSprite(skinId) == SHANK_SKINS[0].sprite
    ensures exists i :: 0 <= i < |SHANK_SKINS| && GetShankSprite(skinId) == SHANK_SKINS[i].sprite
  {
    ShankCatalogWellFormed();
    forall i | 0 <= i < |SHANK_SKINS| && SHANK_SKINS[i].id == skinId
      ensures GetShankSprite(skinId) == SHANK_SKINS[i].sprite
    {
      SpriteOfListedSkin(SHANK_SKINS, i);
    }
  }

  /** The same three facts for the apple catalog. */
  lemma AppleSpriteLookup(skinId: string)
    ensures forall i :: 0 <= i < |APPLE_SKINS| && APPLE_SKINS[i].id == skinId ==>
              GetAppleSprite(skinId) == APPLE_SKINS[i].sprite
    ensures (forall i :: 0 <= i < |APPLE_SKINS| ==> APPLE_SKINS[i].id != skinId) ==>
              GetAppleSprite(skinId) == APPLE_SKINS[0].sprite
    ensures exists i :: 0 <= i < |APPLE_SKINS| && GetAppleSprite(skinId) == APPLE_SKINS[i].sprite
  {
    AppleCatalogWellFormed();
    forall i | 0 <= i < |APPLE_SKINS| && APPLE_SKINS[i].id == skinId
      ensures GetAppleSprite(skinId) == APPLE_SKINS[i].sprite
    {
      SpriteOfListedSkin(APPLE_SKINS, i);
    }
  }

  /** `localStorage.getItem(key) || 'default'`: a missing or empty entry
      reads as the default id. */
  function LoadFrom(items: map<string, string>, key: string): (r: string)
    ensures r != ""
    ensures key in items && items[key] != "" ==> r == items[key]
    ensures !(key in items && items[key] != "") ==> r == DEFAULT_SKIN
  {
    if key in items && items[key] != "" then items[key] else DEFAULT_SKIN
  }

  /** A stored non-empty id loads back unchanged, an empty one as the
      default, and writing one key leaves what the other key loads alone. */
  lemma SaveThenLoad(items: map<string, string>, key: string, other: string, skinId: string)
    requires other != key
    ensures LoadFrom(items[key := skinId], key) == (if skinId == "" then DEFAULT_SKIN else skinId)
    ensures LoadFrom(items[key := skinId], other) == LoadFrom(items, other)
  {
  }

  /** The browser's storage, as far as the skin choice is concerned. */
  class SkinStore {
    var items: map<string, string>

    constructor (initial: map<string, string>)
      ensures items == initial
    {
      items := initial;
    }

    function LoadShankSkin(): (r: string)
      reads this
      ensures r != ""
    {
      LoadFrom(items, SHANK_SKIN_KEY)
    }

    function LoadAppleSkin(): (r: string)
      reads this
      ensures r != ""
    {
      LoadFrom(items, APPLE_SKIN_KEY)
    }

    method SaveShankSkin(skinId: string)
      modifies this
      ensures items == old(items)[SHANK_SKIN_KEY := skinId]
      ensures LoadShankSkin() == (if skinId == "" then DEFAULT_SKIN else skinId)
      ensures LoadAppleSkin() == old(LoadAppleSkin())
    {
      items := items[SHANK_SKIN_KEY := skinId];
      SaveThenLoad(old(items), SHANK_SKIN_KEY, APPLE_SKIN_KEY, skinId);
    }

    method SaveAppleSkin(skinId: string)
      modifies this
      ensures items == old(items)[APPLE_SKIN_KEY := skinId]
      ensures LoadAppleSkin() == (if skinId == "" then DEFAULT_SKIN else skinId)
      ensures LoadShankSkin() == old(LoadShankSkin())
    {
      items := items[APPLE_SKIN_KEY := skinId];
      SaveThenLoad(old(items), APPLE_SKIN_KEY, SHANK_SKIN_KEY, skinId);
    }
  }
}
