/** The vulnerability report the scanner returns for one image, as the task reads it. */
module ScanReport {
  import opened JsText

  /**
   * One finding. The name and severity are always strings on the wire; the score is a
   * number the task only interpolates, kept as the text it renders to.
   */
  datatype Vulnerability = Vulnerability(
    name: string,
    severity: string,
    score: string,
    link: Field,
    packageName: Field,
    packageVersion: Field,
    fixedVersion: Field,
    vectors: Field,
    description: Field)

  /** The `report` object of a successful scan; the findings keep the scanner's order. */
  datatype Report = Report(
    repository: Field,
    tag: Field,
    registry: Field,
    imageId: Field,
    digest: Field,
    baseOs: Field,
    vulnerabilities: seq<Vulnerability>)
}
