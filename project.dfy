/**
 * What the analysis asks of the editor and the file system, given as one
 * input value: the asset database, file contents and the open scenes.
 */
module Project {
  import opened Strings
  import opened Collections
  import opened AssetTypes

  datatype Host = Host(
    /** `AssetDatabase.GetAllAssetPaths()`, in the order the database returns them. */
    assetPaths: seq<string>,
    /** `Application.dataPath`, with forward slashes. */
    dataPath: string,
    /** `FileInfo.FullName` of a path. */
    fullName: string -> string,
    /** `AssetPathToGUID(path, OnlyExistingAssets)`: the empty string for an unknown path. */
    guidOf: string -> string,
    /** `FileInfo.Length` of a path, in bytes. */
    size: string -> nat,
    /** `File.ReadAllText` of a path. */
    text: string -> string,
    /** `File.ReadAllLines` of a path (also used for the `.meta` companion). */
    lines: string -> seq<string>,
    /** The paths of the scenes `SceneManager` has open, in its order. */
    openScenes: seq<string>,
    /** The scripts an assembly definition compiles, as the directory walk returns them. */
    assemblyScripts: string -> seq<string>)

  /** `new FileInfo(path).Extension`. */
  function FileExtension(h: Host, path: string): string
  {
    Extension(h.fullName(path))
  }

  /** `GetAssetType(new FileInfo(path))`. */
  function KindOf(h: Host, path: string): Result<AssetType>
  {
    GetAssetType(FileExtension(h, path), h.size(path), h.text(path))
  }

  /**
   * `IsProjectAsset`: the file lies under the project's data folder and has
   * an extension.
   */
  predicate IsProjectAsset(h: Host, path: string)
  {
    Contains(Replace(h.fullName(path), "\\", "/"), h.dataPath) && FileExtension(h, path) != []
  }
}
