/** The kinds of recorded entities and slices. */
module SliceTypes {
  datatype EntityType = File | App | Domain | Url | Unattributed
  datatype SliceKind = EntitySlice | ProjectSummary | UnattributedResidual

  function TypeName(t: EntityType): string {
    match t
    case File => "file"
    case App => "app"
    case Domain => "domain"
    case Url => "url"
    case Unattributed => "unattributed"
  }

  function KindName(k: SliceKind): string {
    match k
    case EntitySlice => "entity"
    case ProjectSummary => "project_summary"
    case UnattributedResidual => "unattributed_residual"
  }
}
