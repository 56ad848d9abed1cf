/** The profile entities: `ItemWithPath`, `ModItem` and `ProfileItem`, as the engine uses them. */
module ProfileModel {

  /**
   * `ItemWithPath`: an identified file. A `null` path is the empty string here; every consumer
   * treats `null` and "" alike.
   */
  datatype ItemWithPath = ItemWithPath(id: int, fullOsPath: string, relativeOsPath: string)

  /** `ModItem`: an `ItemWithPath` with a mod name (metadata, thumbnail and version flag left out). */
  datatype ModItem = ModItem(id: int, modName: string, fullOsPath: string, relativeOsPath: string)
  {
    /** The `ItemWithPath` part of the mod. */
    function Base(): ItemWithPath {
      ItemWithPath(id, fullOsPath, relativeOsPath)
    }
  }

  /**
   * `ProfileItem` with the members the engine reads and writes: identity, name, selection flag,
   * the snapshot's paths, and the three tracked lists (dates left out).
   */
  datatype ProfileItem = ProfileItem(
    id: int,
    profileName: string,
    isSelectedProfile: bool,
    fullOsPath: string,
    relativeOsPath: string,
    configs: seq<ItemWithPath>,
    patchers: seq<ItemWithPath>,
    mods: seq<ModItem>)

  /** The names of the placeholder mods a new profile starts with. */
  const PlaceholderModNames: seq<string> := [
    "Mod 1",
    "Mod 2",
    "Mod 3",
    "Baldi's Basics Times",
    "Baldi's Basics Advanced Edition",
    "Basics of Plus - The one best mod with the longest name ever made. You can see, it's one of the biggest names I've ever written to a sutpid freaking mod. Lorem ipsum for tyoyiu tuu."
  ]

  /** The placeholder mods: ids 0 to 5, no paths. */
  function PlaceholderMods(): (r: seq<ModItem>)
    ensures |r| == |PlaceholderModNames| == 6
    ensures forall i :: 0 <= i < |r| ==>
              r[i].id == i && r[i].modName == PlaceholderModNames[i] && r[i].fullOsPath == ""
  {
    seq(|PlaceholderModNames|, i requires 0 <= i < |PlaceholderModNames| => ModItem(i, PlaceholderModNames[i], "", ""))
  }

  /** `new ProfileItem(id, profileName)`: unselected, no paths, no configs or patchers, the placeholder mods. */
  function NewProfileItem(id: int, profileName: string): (p: ProfileItem)
    ensures p.id == id && p.profileName == profileName && !p.isSelectedProfile
    ensures p.fullOsPath == "" && p.configs == [] && p.patchers == [] && p.mods == PlaceholderMods()
  {
    ProfileItem(id, profileName, false, "", "", [], [], PlaceholderMods())
  }

  /** The name of the profile kept when no snapshot exists. */
  const DefaultProfileName: string := "Default"

  /**
   * `ProfileItem.Default`, taken to be a fresh profile with id 0 named "Default" (its definition is
   * not part of this model).
   */
  function DefaultProfileItem(): (p: ProfileItem)
    ensures p == NewProfileItem(0, DefaultProfileName)
  {
    NewProfileItem(0, DefaultProfileName)
  }

  /** The full paths of a list of items, in order. */
  function ItemPaths(items: seq<ItemWithPath>): (r: seq<string>)
    ensures |r| == |items| && forall i :: 0 <= i < |items| ==> r[i] == items[i].fullOsPath
  {
    seq(|items|, i requires 0 <= i < |items| => items[i].fullOsPath)
  }

  /** The full paths of a list of mods, read through their `ItemWithPath` part. */
  function ModPaths(mods: seq<ModItem>): (r: seq<string>)
    ensures |r| == |mods| && forall i :: 0 <= i < |mods| ==> r[i] == mods[i].fullOsPath
  {
    ItemPaths(seq(|mods|, i requires 0 <= i < |mods| => mods[i].Base()))
  }

  function ModNames(mods: seq<ModItem>): (r: seq<string>)
    ensures |r| == |mods| && forall i :: 0 <= i < |mods| ==> r[i] == mods[i].modName
  {
    seq(|mods|, i requires 0 <= i < |mods| => mods[i].modName)
  }
}
