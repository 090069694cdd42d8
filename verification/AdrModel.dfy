/** Architecture decision records as the lifecycle checks see them. */
module AdrModel {
  import opened Wrappers

  datatype Status = Accepted | Deprecated | Superseded | UnknownStatus

  /** The fields an accepted record may never change. */
  datatype Identity = Identity(
    id: string, title: string, date: string, aliases: seq<string>, prdReferences: string,
    ownership: map<string, string>, authorization: map<string, string>)

  datatype Provenance = Provenance(
    kind: string, authorityState: Option<string>, cutoverPr: Option<string>, rest: map<string, string>)

  datatype MaintenanceKind = Formatting | Navigation | Typo | UnknownKind

  datatype MaintenanceEntry = MaintenanceEntry(kind: MaintenanceKind, sections: seq<string>)

  datatype Adr = Adr(
    fileName: string, status: Status, supersedes: seq<string>, supersededBy: Option<string>,
    deprecation: Option<string>, maintenance: seq<MaintenanceEntry>,
    identity: Identity, provenance: Provenance, sections: map<string, string>)

  type Collection = map<string, Adr>
}
