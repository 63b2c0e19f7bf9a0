/** The iteration record shared by the Azure DevOps queries and the roadmap grid
    (AppExtensions/AzureDevOpsTools/RoadmapEntries.cs). Dates are whole days
    counted from a reference day after the first representable date. */
module RoadmapEntries {

  type Day = d: int | d > 0 witness 1

  datatype Iteration = Iteration(IterationPath: string, DisplayName: string, StartDate: Day, EndDate: Day)
}
