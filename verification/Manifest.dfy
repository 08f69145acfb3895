/** Snapshot sidecars and the rollup manifest derived from them (manifest.rs). */
module Manifest {
  import opened Wrappers
  import opened Domain

  datatype SidecarStatus = Verified | Failed

  /** The durable record written next to a published snapshot. */
  datatype SnapshotMeta = SnapshotMeta(
    version: VersionId,
    sourceUrl: string,
    downloadedAt: nat,
    archiveSizeBytes: nat,
    archiveSha256: string,
    publisherLastModified: Option<string>,
    etag: Option<string>,
    extractPath: string,
    status: SidecarStatus)
}
