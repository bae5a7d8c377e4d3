/**
 * A storage configuration as the backup pages see it. The storage type
 * declarations are not part of this model: an id is taken as the number
 * `Number(s.id)` gives, `None` standing for one that gives no number, and a
 * missing prefix or custom path as the empty string.
 */
module StorageConfigs {
  import opened Wrappers
  import opened Seqs

  datatype StorageConfig = StorageConfig(
    id: Option<int>,
    storageType: string,
    isEnabled: bool,
    accessUrlPrefix: string,
    customPath: string)

  /** The position of the first storage with that numeric id. */
  function FindStorage(storages: seq<StorageConfig>, storageId: int): Option<nat> {
    FirstWhere(storages, (s: StorageConfig) => s.id == Some(storageId))
  }

  /** `storages.find(s => Number(s.id) === storageId)`. */
  function StorageWithId(storages: seq<StorageConfig>, storageId: int): (r: Option<StorageConfig>)
    ensures r.None? <==> forall k :: 0 <= k < |storages| ==> storages[k].id != Some(storageId)
    ensures forall k ::
      0 <= k < |storages| && storages[k].id == Some(storageId) && (forall j :: 0 <= j < k ==> storages[j].id != Some(storageId))
      ==> r == Some(storages[k])
  {
    match FindStorage(storages, storageId)
    case None => None
    case Some(k) => Some(storages[k])
  }
}
