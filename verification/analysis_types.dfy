/**
  The shape of an analysis as the external service returns it, and the
  status badge's label for each overall verdict.

  The free-text fields are carried as strings and never inspected; the
  score is carried as an unbounded integer because nothing checks the
  0..100 range the response schema describes.
*/
module AnalysisTypes {

  /** The coarse verdict chosen by the external service. */
  datatype OverallStatus = Secure | Warning | Vulnerable

  datatype AffectedPackage = AffectedPackage(name: string, version: string, reason: string)

  datatype GeneralAnalysis = GeneralAnalysis(score: int, findings: seq<string>)

  datatype SupplyChainAttackAnalysis =
    SupplyChainAttackAnalysis(vulnerable: bool, details: string, affectedPackages: seq<AffectedPackage>)

  datatype AnalysisResult = AnalysisResult(
    overallStatus: OverallStatus,
    summary: string,
    generalAnalysis: GeneralAnalysis,
    supplyChainAttackAnalysis: SupplyChainAttackAnalysis)

  /** The text of the status badge: every verdict has one, and it is never
      empty. */
  function StatusLabel(status: OverallStatus): (text: string)
    ensures |text| > 0
  {
    match status
    case Secure => "Seguro"
    case Warning => "Atenção"
    case Vulnerable => "Vulnerável"
  }

  /** Every verdict has its own badge text: the mapping is total by
      construction and no two verdicts share a label. */
  lemma StatusLabelInjective(a: OverallStatus, b: OverallStatus)
    ensures StatusLabel(a) == StatusLabel(b) <==> a == b
    ensures |StatusLabel(a)| > 0
    ensures StatusLabel(Secure) == "Seguro"
    ensures StatusLabel(Warning) == "Atenção"
    ensures StatusLabel(Vulnerable) == "Vulnerável"
  {
  }
}
