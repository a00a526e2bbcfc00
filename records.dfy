/** The records the pharmacy report reads and writes. */
module Records {

  datatype Option<T> = None | Some(value: T)

  /** One row of the prescription file, reduced to the three columns the computation reads.
      Every column is still text, as the CSV reader delivers it. */
  datatype Prescription = Prescription(id: string, drugName: string, drugCost: string)

  /** One row of the report: a drug, its number of distinct prescribers and its imputed total cost. */
  datatype DrugTotal = DrugTotal(drugName: string, numPrescriber: nat, totalCost: int)

  /** The grouping key, `lambda r: r["drug_name"]`. */
  function DrugOf(r: Prescription): string
  {
    r.drugName
  }

  /** The ranking key, `lambda r: r["total_cost"]`. */
  function CostOf(t: DrugTotal): int
  {
    t.totalCost
  }

  /** The set of drug names occurring in the input. */
  function InputDrugs(records: seq<Prescription>): set<string>
  {
    set r | r in records :: r.drugName
  }

  /** The set of drug names occurring in a report. */
  function ReportDrugs(totals: seq<DrugTotal>): set<string>
  {
    set t | t in totals :: t.drugName
  }
}
