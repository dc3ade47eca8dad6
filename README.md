# tGJS scoring and stratification, modelled in Dafny

The transcriptomic gate-jamming score (tGJS) weighs three genes: HK2 by 0.4,
BCL2L1 by 0.3 and TSPO by 0.3. This project models the score-and-stratify core
of three analysis scripts. It states and proves what each step promises.

- **Pan-cancer** (`analysis/tcga_gjs/compute_tgjs.py`):
  - de-duplicates the gene list and derives the cancer type from a study id;
  - drops samples missing a GJS gene and min-max normalises each gene across
    the cohort to form the score;
  - correlates the score with immune markers and builds acute and chronic STING
    z-score signatures and their difference, `sting_ratio`;
  - decides the CONFIRMED / NOT CONFIRMED verdict of the ICI-response
    correlation.
- **TCGA COADREAD** (`analysis/tcga_gjs/compute_tgjs_coadread_mss.py`):
  - collects MSI records and TP53 non-silent mutants, then classifies MSI status
    from the consensus call, falling back to the MANTIS score and then the
    MSIsensor score;
  - rank-normalises the three genes to form the score;
  - assigns each sample to one of four MSI × TP53 strata or UNKNOWN;
  - runs per-stratum Spearman tests. A test with fewer than 10 pairs is given
    p = 1. The p-values are Bonferroni-corrected with a cap at 1.
- **Riaz 2017 nivolumab cohort** (`analysis/riaz2017/compute_tgjs_riaz2017.py`):
  - builds clinical records from the GEO characteristics lines;
  - aligns expression columns to samples in three ways: by title, by an
    accession contained in the column name, or by position, and otherwise fails
    with an error;
  - resolves gene index labels by exact name, then partial name, then Entrez id;
  - z-scores each gene with the n − 1 deviation, where a zero deviation gives
    zeros;
  - forms the weighted composite and codes the responses;
  - extracts `Pt<digits>` patient ids and selects the patients biopsied both
    Pre and On treatment.

Modelling conventions:
- A pandas or NumPy NaN is `None` in an `Option<real>` column. It propagates as
  NaN does, and a comparison with it is false.
- A data frame is a row count plus a map from column name to column.
- Spearman's test, the standard deviation (a square root) and Python's `float()`
  parsing are passed in as parameters and constrained by `requires` clauses.
  For example, `IsSampleSd(sd, v)` says `sd ≥ 0` and `sd² = sample variance`.
- Loops that build state in the source are methods, each proved equal to a
  specification function. The properties are proved about those functions.

Modules:
- `Wrappers`, `Text`, `Seqs`, `Stats`: Option and Result, string helpers,
  sequence helpers, and the statistics used by the scores.
- `Gjs`: the weights and the tGJS formula.
- `PanCancerScore`, `PanCancer`: the pan-cancer script.
- `CoadreadClinical`, `CoadreadScore`, `CoadreadStrata`, `CoadreadCorrelations`:
  the COADREAD script.
- `RiazClinical`, `RiazColumns`, `RiazGenes`, `RiazScore`: the nivolumab cohort.

## Model

| member | source | states |
|---|---|---|
| Stats.PresentRows | analysis/tcga_gjs/compute_tgjs.py:292 | `dropna()` keeps the values of the present rows, in row order |
| Stats.PresentMembers | analysis/tcga_gjs/compute_tgjs.py:292 | a value is among the dropped-to values exactly when some row holds it |
| Stats.SomePresent | analysis/tcga_gjs/compute_tgjs.py:298-299 | some value is present exactly when some row holds one |
| Stats.PairsRows | analysis/tcga_gjs/compute_tgjs_coadread_mss.py:503 | two-column `dropna()` keeps the rows where both columns are present, in row order |
| Stats.StandardizedSumsToZero | analysis/tcga_gjs/compute_tgjs.py:293 | values standardised about their own mean sum to zero |
| Stats.SumSqStandardized | analysis/tcga_gjs/compute_tgjs.py:293 | the squared deviations of standardised values, scaled by the squared deviation, are the original squared deviations |
| Stats.StandardizedUnitVariance | analysis/tcga_gjs/compute_tgjs.py:293 | values standardised by their own sample deviation have sample variance 1 |
| Gjs.WeightsSumToOne | analysis/tcga_gjs/compute_tgjs.py:40 | the three weights are non-negative and sum to 1 |
| Gjs.Tgjs | analysis/tcga_gjs/compute_tgjs.py:40 | three equal normalised values score that value |
| Gjs.TgjsBetween | analysis/tcga_gjs/compute_tgjs.py:237-241 | the weighted score lies within any bounds shared by the three gene values |
| Gjs.TgjsRow | analysis/tcga_gjs/compute_tgjs.py:237-241 | a sample's score is present exactly when all three normalised genes are, and it equals the weighted sum |
| Gjs.TgjsColumn | analysis/tcga_gjs/compute_tgjs_coadread_mss.py:372-376 | the score column is element by element the row score of the three normalised columns |
| Gjs.NormalizedKeepsGenes | analysis/tcga_gjs/compute_tgjs_coadread_mss.py:366-370 | adding `<gene>_norm` columns leaves the raw gene columns unchanged |
| Gjs.NormalizedAll | analysis/tcga_gjs/compute_tgjs_coadread_mss.py:366-370 | after the loop the frame holds exactly the three `_norm` columns added in gene order |
| Gjs.ScoredWellFormed | analysis/tcga_gjs/compute_tgjs.py:232-241 | adding the normalised columns and tGJS keeps every column at the frame's row count |
| PanCancer.AllGenes | analysis/tcga_gjs/compute_tgjs.py:118-120 | the merged gene list has no repeats and holds exactly the genes of the five lists |
| PanCancer.AllGenesOnce | analysis/tcga_gjs/compute_tgjs.py:118-120 | every listed gene is fetched exactly once and no other gene is fetched |
| PanCancer.AllGenesOrder | analysis/tcga_gjs/compute_tgjs.py:120 | `dict.fromkeys` keeps genes in order of first appearance |
| PanCancer.CancerType | analysis/tcga_gjs/compute_tgjs.py:125 | removing the study suffix never lengthens the id |
| PanCancer.CancerTypeOfStudy | analysis/tcga_gjs/compute_tgjs.py:125 | `<code>_tcga_pan_can_atlas_2018` yields the upper-cased code |
| PanCancer.CancerTypeNoSuffix | analysis/tcga_gjs/compute_tgjs.py:125 | an id without the suffix (and without `_`) is only upper-cased |
| PanCancer.ImmuneRowOf | analysis/tcga_gjs/compute_tgjs.py:265-275 | a row reports the marker, the number of complete pairs, and rho and p of the Spearman test on exactly those pairs; it is significant exactly when p < 0.01 |
| PanCancer.ImmuneRows | analysis/tcga_gjs/compute_tgjs.py:259-277 | every reported row is a listed marker present in the frame with at least 10 complete pairs |
| PanCancer.TestedMask | analysis/tcga_gjs/compute_tgjs.py:262-268 | marks exactly the markers present in the frame with at least 10 complete pairs |
| PanCancer.ImmuneRowsOrder | analysis/tcga_gjs/compute_tgjs.py:259-277 | the report has one row per tested marker, in the order of the marker list: row k is the row of the k-th tested marker |
| PanCancer.ImmuneRowsComplete | analysis/tcga_gjs/compute_tgjs.py:262-268 | every listed marker present with at least 10 pairs is reported |
| PanCancer.CorrelateImmune | analysis/tcga_gjs/compute_tgjs.py:259-277 | the loop's rows are the specified immune rows for the five immune genes |
| PanCancer.Available | analysis/tcga_gjs/compute_tgjs.py:283-284 | a STING gene is used exactly when it is a column with more than 100 non-missing values |
| PanCancer.ZColumn | analysis/tcga_gjs/compute_tgjs.py:292-293 | with `std` the sample deviation, a z value is present exactly when the expression is present and the gene has two or more values that are not all equal (otherwise pandas' deviation is NaN or the division is 0/0) |
| PanCancer.PresentZEntries | analysis/tcga_gjs/compute_tgjs.py:293 | the present z values are the present expression values, standardised, in the same order |
| PanCancer.ZColumnSumsToZero | analysis/tcga_gjs/compute_tgjs.py:292-293 | a gene's present z values sum to zero |
| PanCancer.ZColumnUnitVariance | analysis/tcga_gjs/compute_tgjs.py:292-293 | a gene that varies has z values with sample variance 1 |
| PanCancer.ZColumnOrder | analysis/tcga_gjs/compute_tgjs.py:293 | z-scoring keeps the strict order of expression values |
| PanCancer.ZScoredKeeps | analysis/tcga_gjs/compute_tgjs.py:291-293 | adding `<gene>_z` columns never overwrites an existing column without `_` in its name |
| PanCancer.ZScoredRows | analysis/tcga_gjs/compute_tgjs.py:291-293 | every available gene gets a `_z` column of the frame's length |
| PanCancer.ZScoredWellFormed | analysis/tcga_gjs/compute_tgjs.py:291-293 | the frame stays well formed while z columns are added |
| PanCancer.ZScoredHasUpTo | analysis/tcga_gjs/compute_tgjs.py:291-293 | after the loop, the `_z` column of every gene handled is that gene's z column |
| PanCancer.ZNameInjective | analysis/tcga_gjs/compute_tgjs.py:293 | distinct genes get distinct `_z` columns |
| PanCancer.ZNames | analysis/tcga_gjs/compute_tgjs.py:295-296 | the signature column lists are the `_z` names of the available genes, in order |
| PanCancer.ZNamesHaveRows | analysis/tcga_gjs/compute_tgjs.py:295-299 | every column averaged into a signature exists and has the frame's length |
| PanCancer.SignatureColumn | analysis/tcga_gjs/compute_tgjs.py:298-299 | a signature column has one entry per sample; its entries are stated by `RowMeanPresent` and `StingSignatureRows` |
| PanCancer.RowMeanPresent | analysis/tcga_gjs/compute_tgjs.py:298-299 | `mean(axis=1)` is present in a row exactly when one of the averaged columns is, and is then the mean of the present entries |
| PanCancer.ZRowPresence | analysis/tcga_gjs/compute_tgjs.py:292-299 | the mean of a row of z values is present exactly when one of the genes has a value in that row and varies across samples |
| PanCancer.ZScoredRowValues | analysis/tcga_gjs/compute_tgjs.py:291-299 | read through the `_z` names, a signature's row after the loop is the row of its genes' z values |
| PanCancer.SignatureOfGenes | analysis/tcga_gjs/compute_tgjs.py:291-299 | a signature entry after the loop is the NaN-skipping mean of its genes' z values in that row |
| PanCancer.StingSignatureRows | analysis/tcga_gjs/compute_tgjs.py:290-299 | each signature entry is the NaN-skipping mean of its usable genes' z values, present exactly when one of those genes has a value there and varies across samples |
| PanCancer.StingColumnsKeepScore | analysis/tcga_gjs/compute_tgjs.py:290-302 | the signature columns leave the `tGJS` column unchanged |
| PanCancer.RatioColumn | analysis/tcga_gjs/compute_tgjs.py:302 | the ratio column has one entry per sample |
| PanCancer.StingColumns | analysis/tcga_gjs/compute_tgjs.py:290-302 | an ungated frame gains acute, chronic and ratio columns of the frame's length, where ratio is acute − chronic, and stays well formed |
| PanCancer.SignatureFrame | analysis/tcga_gjs/compute_tgjs.py:290-302 | for any gene lists, the `_z` columns, both signatures and their difference give a well-formed frame where ratio is acute − chronic |
| PanCancer.SignatureFrameKeeps | analysis/tcga_gjs/compute_tgjs.py:290-302 | a column whose name has no underscore keeps its values through the z-scoring and signature assignments |
| PanCancer.SignatureFrameRows | analysis/tcga_gjs/compute_tgjs.py:290-299 | for any gene lists, each signature entry is the NaN-skipping mean of its genes' z values, present exactly when one gene has a value there and varies |
| PanCancer.StingRatioDifference | analysis/tcga_gjs/compute_tgjs.py:302 | the ratio is present exactly when both signatures are, and then ratio + chronic = acute |
| PanCancer.StingResults | analysis/tcga_gjs/compute_tgjs.py:305-323 | every result is labelled by one of the eight tested columns |
| PanCancer.StingResultsTested | analysis/tcga_gjs/compute_tgjs.py:306-322 | a column's result is present exactly when it is present with more than 10 complete pairs; n is that count, and rho and p are the Spearman test's on exactly those pairs |
| PanCancer.ZScoreGenes | analysis/tcga_gjs/compute_tgjs.py:291-293 | the loop adds exactly the specified z columns |
| PanCancer.AddSignatures | analysis/tcga_gjs/compute_tgjs.py:291-302 | the ungated frame gains exactly the specified signature columns |
| PanCancer.StingTests | analysis/tcga_gjs/compute_tgjs.py:305-323 | the correlation loops give exactly the specified results |
| PanCancer.ComputeStingRatio | analysis/tcga_gjs/compute_tgjs.py:280-325 | fewer than two usable acute or chronic genes returns the frame unchanged with no results; otherwise it returns the frame with the signatures added and the results |
| PanCancer.IciPrediction | analysis/tcga_gjs/compute_tgjs.py:512 | CONFIRMED exactly when rho < −0.3 and p < 0.05, and NOT CONFIRMED otherwise |
| PanCancer.IciMessageOf | analysis/tcga_gjs/compute_tgjs.py:581-586 | CONFIRMED exactly when the saved prediction is; the trend message exactly when not confirmed and rho < 0; NOT CONFIRMED exactly when rho is NaN or not negative |
| PanCancer.WithRate | analysis/tcga_gjs/compute_tgjs.py:505 | dropping cancer types without an ICI rate leaves one pair per known rate, and the rates kept are the present rates in order; a NaN mean score is kept |
| PanCancer.WithRateRows | analysis/tcga_gjs/compute_tgjs.py:505 | the mean scores kept are those of the cancer types with a rate, in order |
| PanCancer.IciCorrelation | analysis/tcga_gjs/compute_tgjs.py:505-513 | the correlation is reported exactly when at least 5 cancer types have a rate; it counts them; rho and p are the Spearman test's on the kept means and rates when every kept mean is present, and NaN otherwise; it carries the prediction |
| PanCancer.IciNoScoreNoCorrelation | analysis/tcga_gjs/compute_tgjs.py:505-513 | a cancer type with a rate but a NaN mean score leaves rho NaN and the prediction "NOT CONFIRMED" |
| Stats.CountPresentBelow | analysis/tcga_gjs/compute_tgjs.py:505 | a column with a missing entry has fewer present values than rows |
| PanCancerScore.KeepRows | analysis/tcga_gjs/compute_tgjs.py:229 | the kept column has one entry per kept row |
| PanCancerScore.KeepRowsRows | analysis/tcga_gjs/compute_tgjs.py:229 | entry k of the kept column is the entry of the k-th kept row, so the rows keep their order |
| PanCancerScore.KeepRowsPresent | analysis/tcga_gjs/compute_tgjs.py:229 | rows kept because they are complete carry only present values |
| PanCancerScore.KeepRowsMembers | analysis/tcga_gjs/compute_tgjs.py:229 | the kept values are exactly the values of the kept rows |
| PanCancerScore.MissingGenes | analysis/tcga_gjs/compute_tgjs.py:229 | the reported genes are exactly the GJS genes absent from the frame |
| PanCancerScore.DropIncomplete | analysis/tcga_gjs/compute_tgjs.py:229 | dropping rows keeps every column and the frame's shape |
| PanCancerScore.CompleteRows | analysis/tcga_gjs/compute_tgjs.py:229 | the mask has one entry per row of the frame |
| PanCancerScore.DropIncompleteRows | analysis/tcga_gjs/compute_tgjs.py:229 | row k of every column after the drop is the k-th complete row of the input, so samples stay whole and in order |
| PanCancerScore.DroppedComplete | analysis/tcga_gjs/compute_tgjs.py:229 | every remaining sample has all three GJS genes |
| PanCancerScore.MinOf | analysis/tcga_gjs/compute_tgjs.py:234 | the minimum is a value of the column and no value is below it |
| PanCancerScore.MaxOf | analysis/tcga_gjs/compute_tgjs.py:234 | the maximum is a value of the column and no value is above it |
| PanCancerScore.MinMaxNormalize | analysis/tcga_gjs/compute_tgjs.py:233-234 | normalising keeps the length, and a missing value stays missing |
| PanCancerScore.UnitScale | analysis/tcga_gjs/compute_tgjs.py:234 | a value between min and max scales into [0, 1], with min going to 0 and max to 1 |
| PanCancerScore.MinMaxBounds | analysis/tcga_gjs/compute_tgjs.py:232-234 | with a spread, every present value normalises into [0, 1], the minimum to 0 and the maximum to 1 |
| PanCancerScore.MinMaxAt | analysis/tcga_gjs/compute_tgjs.py:234 | the normalised value is (v − min) / (max − min) over the present values |
| PanCancerScore.ScaleOrder | analysis/tcga_gjs/compute_tgjs.py:234 | scaling keeps strict order |
| PanCancerScore.MinMaxOrder | analysis/tcga_gjs/compute_tgjs.py:232-234 | a strictly smaller expression normalises to a strictly smaller value |
| PanCancerScore.MinMaxConstant | analysis/tcga_gjs/compute_tgjs.py:234 | a gene without spread (max = min) normalises to all NaN |
| PanCancerScore.NormalizeAndScore | analysis/tcga_gjs/compute_tgjs.py:231-241 | the normalise-and-score loop yields the specified scored frame |
| PanCancerScore.ComputeTgjs | analysis/tcga_gjs/compute_tgjs.py:218-243 | fails exactly when a GJS gene column is missing and names those genes; otherwise it scores the complete rows |
| PanCancerScore.TgjsUnitInterval | analysis/tcga_gjs/compute_tgjs.py:229-241 | when every gene has a spread, every scored sample has a tGJS in [0, 1] |
| PanCancerScore.ConstantGeneNoScores | analysis/tcga_gjs/compute_tgjs.py:234-241 | a GJS gene without spread leaves every tGJS NaN |
| CoadreadClinical.SampleKey | analysis/tcga_gjs/compute_tgjs_coadread_mss.py:135 | `[:15]` is a prefix of at most 15 characters, equal to a short id and of length 15 otherwise |
| CoadreadClinical.ScoreCall | analysis/tcga_gjs/compute_tgjs_coadread_mss.py:202-208 | a NaN score decides nothing; otherwise MSI-H exactly above the cutoff |
| CoadreadClinical.ClassifyMsi | analysis/tcga_gjs/compute_tgjs_coadread_mss.py:192-217 | a non-empty consensus decides alone (MSI-H labels, then MSS labels, else UNKNOWN); an empty one falls back to MANTIS > 0.4 and then MSIsensor > 10; UNKNOWN exactly when nothing decides |
| CoadreadClinical.ConsensusDecidesAlone | analysis/tcga_gjs/compute_tgjs_coadread_mss.py:194-199 | with a non-empty consensus the numeric scores never change the call |
| CoadreadClinical.Tp53Mutants | analysis/tcga_gjs/compute_tgjs_coadread_mss.py:165-171 | a sample key is a mutant exactly when some non-silent TP53 mutation has that key |
| CoadreadClinical.CollectTp53Mutants | analysis/tcga_gjs/compute_tgjs_coadread_mss.py:165-171 | the mutation loop collects exactly the specified mutant set |
| CoadreadClinical.HasKeySnoc | analysis/tcga_gjs/compute_tgjs_coadread_mss.py:134-135 | a batch reports a key exactly when its prefix or its last record does |
| CoadreadClinical.RecordAllEntries | analysis/tcga_gjs/compute_tgjs_coadread_mss.py:134-138 | after one attribute's batch, a sample has a value for an attribute exactly when it had one before or the batch reports it |
| CoadreadClinical.ReportedSnoc | analysis/tcga_gjs/compute_tgjs_coadread_mss.py:128-138 | the batches report a key for an attribute exactly when the earlier batches or the last one do |
| CoadreadClinical.MsiRecordsEntries | analysis/tcga_gjs/compute_tgjs_coadread_mss.py:126-138 | `msi_records[sid][attr]` exists exactly when some batch for that attribute has a record with that 15-character key |
| CoadreadClinical.RecordAllKeeps | analysis/tcga_gjs/compute_tgjs_coadread_mss.py:130-138 | a batch for another attribute, or without a record for the sample, leaves that sample's value unchanged |
| CoadreadClinical.RecordAllLast | analysis/tcga_gjs/compute_tgjs_coadread_mss.py:130-138 | within a batch, the last record of a sample sets its value |
| CoadreadClinical.MsiRecordsLastWins | analysis/tcga_gjs/compute_tgjs_coadread_mss.py:126-138 | the value kept for (sample, attribute) is that of the last record with that key, across batches and within one |
| CoadreadClinical.BuildMsiRecords | analysis/tcga_gjs/compute_tgjs_coadread_mss.py:126-141 | the nested loop builds exactly the specified record map |
| CoadreadClinical.Score | analysis/tcga_gjs/compute_tgjs_coadread_mss.py:202 | a missing attribute parses as NaN |
| CoadreadClinical.ClinicalRowOf | analysis/tcga_gjs/compute_tgjs_coadread_mss.py:187-223 | a row keys the 15-character id; its MSI status is the classifier's label on the sample's consensus call, MANTIS and MSIsensor scores; the raw MANTIS and MSIsensor strings are the sample's records; TP53 is mutant exactly when the key is a mutant; a sample with no record is UNKNOWN |
| CoadreadClinical.AssembleClinical | analysis/tcga_gjs/compute_tgjs_coadread_mss.py:186-223 | one row per sample id, each the specified clinical row |
| CoadreadScore.CountLess | analysis/tcga_gjs/compute_tgjs_coadread_mss.py:370 | the count of smaller values is at most the column length |
| CoadreadScore.CountEqual | analysis/tcga_gjs/compute_tgjs_coadread_mss.py:370 | the count of equal values is at most the column length |
| CoadreadScore.CountBounds | analysis/tcga_gjs/compute_tgjs_coadread_mss.py:370 | smaller plus equal values never exceed the column, and a value present counts itself |
| CoadreadScore.CountLessMonotone | analysis/tcga_gjs/compute_tgjs_coadread_mss.py:370 | a larger value has at least as many smaller values as the lower value has smaller-or-equal values |
| CoadreadScore.AverageRankBounds | analysis/tcga_gjs/compute_tgjs_coadread_mss.py:370 | the average rank of a present value lies in [1, n] |
| CoadreadScore.AverageRankOrder | analysis/tcga_gjs/compute_tgjs_coadread_mss.py:370 | a strictly larger value has a strictly larger average rank |
| CoadreadScore.RankNormalize | analysis/tcga_gjs/compute_tgjs_coadread_mss.py:370 | `rank(method="average") / n` keeps the length and the missing entries, and ties get equal values |
| CoadreadScore.RankNormalizeBounds | analysis/tcga_gjs/compute_tgjs_coadread_mss.py:369-370 | every present value normalises into (0, present/n] ⊆ (0, 1] |
| CoadreadScore.RankNormalizeOrder | analysis/tcga_gjs/compute_tgjs_coadread_mss.py:370 | a strictly smaller expression gets a strictly smaller normalised rank |
| CoadreadScore.FirstMissing | analysis/tcga_gjs/compute_tgjs_coadread_mss.py:366-368 | the error names the first missing GJS gene in gene order |
| CoadreadScore.ComputeTgjsCoadread | analysis/tcga_gjs/compute_tgjs_coadread_mss.py:358-377 | raises "Missing GJS gene: …" exactly when a gene is absent; otherwise it adds the rank-normalised columns and tGJS |
| CoadreadScore.ScoredTgjsBounds | analysis/tcga_gjs/compute_tgjs_coadread_mss.py:366-376 | a sample with all three genes has a tGJS in (0, 1] |
| CoadreadStrata.GetStratum | analysis/tcga_gjs/compute_tgjs_coadread_mss.py:390-404 | UNKNOWN exactly for MSI "UNKNOWN"; otherwise one of the four strata, MSI-H axis exactly for "MSI-H" and mutant axis exactly for "mutant" |
| CoadreadStrata.StratumOf | analysis/tcga_gjs/compute_tgjs_coadread_mss.py:384-406 | left-merge semantics: a sample without clinical data is MSS_TP53wt, and a matched one gets its row's stratum |
| CoadreadStrata.ClinicalRowStratum | analysis/tcga_gjs/compute_tgjs_coadread_mss.py:219-220 | the stratum of an assembled row follows its MSI call and the sample's TP53 mutant status |
| CoadreadStrata.AssignStrata | analysis/tcga_gjs/compute_tgjs_coadread_mss.py:406 | one stratum per sample, in order |
| CoadreadStrata.ClinicalIndex | analysis/tcga_gjs/compute_tgjs_coadread_mss.py:384-388 | the merge finds a clinical row exactly for the sample ids in the clinical table |
| CoadreadStrata.ClinicalIndexOf | analysis/tcga_gjs/compute_tgjs_coadread_mss.py:384-388 | with distinct sample ids, the merge finds each sample's own clinical row |
| CoadreadStrata.StrataFromClinical | analysis/tcga_gjs/compute_tgjs_coadread_mss.py:384-406 | a sample whose id has a clinical row gets the stratum of that row's MSI and TP53 calls |
| CoadreadStrata.Select | analysis/tcga_gjs/compute_tgjs_coadread_mss.py:698 | selecting a stratum keeps one value per sample of that stratum |
| CoadreadStrata.SelectRows | analysis/tcga_gjs/compute_tgjs_coadread_mss.py:698 | the selected values are those of the stratum's rows, in row order |
| CoadreadStrata.SummarizeStrata | analysis/tcga_gjs/compute_tgjs_coadread_mss.py:696-704 | the summary has exactly the four labelled strata, each with its count and mean |
| CoadreadStrata.StrataPartition | analysis/tcga_gjs/compute_tgjs_coadread_mss.py:390-406 | the four strata and UNKNOWN partition the samples |
| CoadreadStrata.SummaryMeanDefined | analysis/tcga_gjs/compute_tgjs_coadread_mss.py:702 | with scores for all samples, the mean is reported exactly when the stratum is non-empty |
| CoadreadStrata.SelectPresent | analysis/tcga_gjs/compute_tgjs_coadread_mss.py:698-702 | with scores for all samples, a stratum's present scores number its samples |
| CoadreadCorrelations.CorrectOne | analysis/tcga_gjs/compute_tgjs_coadread_mss.py:106-108 | a NaN stays NaN; otherwise the value is min(p · n, 1) and never above 1 |
| CoadreadCorrelations.Bonferroni | analysis/tcga_gjs/compute_tgjs_coadread_mss.py:106-108 | the result is a new list, in the same order, whose entries are each p-value times the number of tests capped at 1 (NaN stays NaN) |
| CoadreadCorrelations.ScaleAtLeast | analysis/tcga_gjs/compute_tgjs_coadread_mss.py:108 | with at least one test, multiplying never lowers a p-value |
| CoadreadCorrelations.ScaleMonotone | analysis/tcga_gjs/compute_tgjs_coadread_mss.py:108 | multiplying by the test count keeps order |
| CoadreadCorrelations.CorrectionBounds | analysis/tcga_gjs/compute_tgjs_coadread_mss.py:106-108 | a corrected p lies between the raw p and 1 |
| CoadreadCorrelations.CorrectionMonotone | analysis/tcga_gjs/compute_tgjs_coadread_mss.py:106-108 | the correction keeps the order of p-values |
| CoadreadCorrelations.CorrectedSignificantIsRaw | analysis/tcga_gjs/compute_tgjs_coadread_mss.py:525-526 | Bonferroni significance implies raw significance |
| CoadreadCorrelations.Markers | analysis/tcga_gjs/compute_tgjs_coadread_mss.py:479-488 | the tested markers have no repeats and are exactly the candidate markers present as columns |
| CoadreadCorrelations.MarkersOrder | analysis/tcga_gjs/compute_tgjs_coadread_mss.py:479-488 | the tested markers keep the order of the candidate list |
| CoadreadCorrelations.PresentStrata | analysis/tcga_gjs/compute_tgjs_coadread_mss.py:490 | the tested strata are exactly the four labelled strata that occur, without repeats and never UNKNOWN |
| CoadreadCorrelations.PresentStrataOrder | analysis/tcga_gjs/compute_tgjs_coadread_mss.py:490 | the tested strata keep the fixed stratum order |
| CoadreadCorrelations.TestPairs | analysis/tcga_gjs/compute_tgjs_coadread_mss.py:503-512 | fewer than 10 pairs give rho NaN and p = 1; otherwise Spearman's result; n is the pair count |
| CoadreadCorrelations.StratumPairs | analysis/tcga_gjs/compute_tgjs_coadread_mss.py:494-503 | the complete (tGJS, marker) pairs of a stratum come in equal numbers |
| CoadreadCorrelations.StratumPairsRows | analysis/tcga_gjs/compute_tgjs_coadread_mss.py:494-503 | the pairs are the score and the marker on the stratum's rows where both are present, in row order |
| CoadreadCorrelations.RawPValues | analysis/tcga_gjs/compute_tgjs_coadread_mss.py:498-512 | one raw p-value per marker, from that marker's test |
| CoadreadCorrelations.RowOf | analysis/tcga_gjs/compute_tgjs_coadread_mss.py:514-527 | a result row carries the stratum, its label and the marker; rho, raw p and n are that marker's test in that stratum; the Bonferroni p is over all markers; both significance flags are at 0.05 |
| CoadreadCorrelations.StratumRows | analysis/tcga_gjs/compute_tgjs_coadread_mss.py:516-527 | one row per marker, in marker order |
| CoadreadCorrelations.TestMarkers | analysis/tcga_gjs/compute_tgjs_coadread_mss.py:498-512 | the marker loop yields, per marker, the specified rho, raw p and n |
| CoadreadCorrelations.StratumTable | analysis/tcga_gjs/compute_tgjs_coadread_mss.py:494-527 | one stratum's loop yields exactly the specified rows |
| CoadreadCorrelations.RunStratifiedCorrelations | analysis/tcga_gjs/compute_tgjs_coadread_mss.py:474-529 | the whole run yields the rows of every present stratum against every present marker |
| CoadreadCorrelations.StratifiedRowsLength | analysis/tcga_gjs/compute_tgjs_coadread_mss.py:493-527 | the long table has strata × markers rows |
| CoadreadCorrelations.StratifiedRowsIndex | analysis/tcga_gjs/compute_tgjs_coadread_mss.py:493-527 | row k · markers + j is stratum k's row for marker j |
| CoadreadCorrelations.RowFlags | analysis/tcga_gjs/compute_tgjs_coadread_mss.py:504-526 | a Bonferroni-significant row is raw-significant, and a row with fewer than 10 pairs is never significant |
| RiazClinical.ParseCharacteristics | analysis/riaz2017/compute_tgjs_riaz2017.py:59-63 | the characteristics loop builds exactly the specified dictionary |
| RiazClinical.CharacteristicsSnoc | analysis/riaz2017/compute_tgjs_riaz2017.py:60-63 | a line with a colon sets its stripped key to its stripped value; a line without one changes nothing |
| RiazClinical.CharacteristicKeys | analysis/riaz2017/compute_tgjs_riaz2017.py:59-63 | a key is present exactly when some line with a colon names it |
| RiazClinical.CharacteristicLastWins | analysis/riaz2017/compute_tgjs_riaz2017.py:62-63 | the value of a key is the one on the last line naming it |
| RiazClinical.RecordOf | analysis/riaz2017/compute_tgjs_riaz2017.py:64-70 | a record carries the sample's accession and title |
| RiazClinical.FieldDefault | analysis/riaz2017/compute_tgjs_riaz2017.py:67-69 | a field no line names is "NA" |
| RiazClinical.FieldFromLine | analysis/riaz2017/compute_tgjs_riaz2017.py:67-69 | a named field is the value of the last line naming it |
| RiazClinical.BuildRecords | analysis/riaz2017/compute_tgjs_riaz2017.py:57-70 | one record per sample, in GEO order |
| RiazClinical.RespBin | analysis/riaz2017/compute_tgjs_riaz2017.py:223-225 | defined exactly on CR, PR, PRCR, SD and PD: 1 exactly for CR, PR and PRCR, 0 exactly for SD and PD |
| RiazClinical.RespNum | analysis/riaz2017/compute_tgjs_riaz2017.py:227-229 | defined exactly on the five labels: CR 4, PR 3, PRCR 3.5, SD 2, PD 1 |
| RiazClinical.ResponseCodingsAgree | analysis/riaz2017/compute_tgjs_riaz2017.py:223-229 | both codings are defined on the same labels; responders score at least 3 and non-responders at most 2 |
| RiazClinical.VisitShort | analysis/riaz2017/compute_tgjs_riaz2017.py:299 | the short visit is the stripped visit when that is "Pre" or "On", and NaN otherwise |
| RiazClinical.DigitRun | analysis/riaz2017/compute_tgjs_riaz2017.py:298 | `\d+` matches greedily: digits up to the first non-digit |
| RiazClinical.FindPatient | analysis/riaz2017/compute_tgjs_riaz2017.py:298 | the leftmost position where `Pt\d` matches |
| RiazClinical.ExtractPatient | analysis/riaz2017/compute_tgjs_riaz2017.py:298 | NaN exactly when the title contains no `Pt<digit>`; otherwise a substring of the title, "Pt" followed by digits only |
| RiazClinical.PatientOfTitle | analysis/riaz2017/compute_tgjs_riaz2017.py:297-298 | a title "Pt<digits><rest>", where rest does not start with a digit, gives the patient "Pt<digits>" |
| RiazClinical.VisitSetSnoc | analysis/riaz2017/compute_tgjs_riaz2017.py:302-303 | a usable row of the patient adds its short visit to that patient's visit set |
| RiazClinical.GroupVisits | analysis/riaz2017/compute_tgjs_riaz2017.py:301-303 | the groups are exactly the patients with a usable row, each with the set of its short visits |
| RiazClinical.PairedPatients | analysis/riaz2017/compute_tgjs_riaz2017.py:301-304 | a patient is paired exactly when its visit set is {Pre, On} |
| RiazClinical.PairedMeansBothVisits | analysis/riaz2017/compute_tgjs_riaz2017.py:301-304 | paired exactly when the patient has a usable Pre row and a usable On row and no usable row with another visit |
| RiazColumns.Put | analysis/riaz2017/compute_tgjs_riaz2017.py:105-119 | dict assignment keeps a known column in its place with the new accession, and appends a new column |
| RiazColumns.TitleMap | analysis/riaz2017/compute_tgjs_riaz2017.py:102 | the title map covers exactly the sample titles and maps each to the accession of a sample with that title |
| RiazColumns.TitleMapLastWins | analysis/riaz2017/compute_tgjs_riaz2017.py:102 | a title maps to the accession of the last sample with that title |
| RiazColumns.TitleStage | analysis/riaz2017/compute_tgjs_riaz2017.py:105-108 | the first stage renames exactly the columns that are sample titles, each to its title's accession |
| RiazColumns.FirstContained | analysis/riaz2017/compute_tgjs_riaz2017.py:116-119 | the accession found is the first, in iteration order, contained in the column name; none exactly when none is contained |
| RiazColumns.IdStage | analysis/riaz2017/compute_tgjs_riaz2017.py:115-119 | the second stage adds or re-maps exactly the columns containing an accession; every such column, title-matched or not, ends up mapped to the first accession found |
| RiazColumns.FindId | analysis/riaz2017/compute_tgjs_riaz2017.py:116-119 | the loop with `break` finds the specified first contained accession |
| RiazColumns.TitleLoop | analysis/riaz2017/compute_tgjs_riaz2017.py:105-108 | the title loop builds the first-stage renaming |
| RiazColumns.IdLoop | analysis/riaz2017/compute_tgjs_riaz2017.py:115-119 | the accession loop builds the second-stage renaming from the first |
| RiazColumns.MatchColumns | analysis/riaz2017/compute_tgjs_riaz2017.py:105-138 | the matching steps give the specified renaming or the mismatch error |
| RiazColumns.MatchedJustified | analysis/riaz2017/compute_tgjs_riaz2017.py:105-119 | no column is renamed twice, and every renamed column is a matrix column renamed to an accession of its title or contained in its name |
| RiazColumns.TitleColumnsKept | analysis/riaz2017/compute_tgjs_riaz2017.py:105-119 | a column equal to a sample title is always matched |
| RiazColumns.SearchOnlyWhenFew | analysis/riaz2017/compute_tgjs_riaz2017.py:112 | a column containing an accession is left unmatched only when at least half of the columns are titles |
| RiazColumns.MatchFallback | analysis/riaz2017/compute_tgjs_riaz2017.py:126-138 | the run fails exactly when nothing matched and the counts differ; a positional fallback renames column i to the i-th sample |
| RiazGenes.FirstMatch | analysis/riaz2017/compute_tgjs_riaz2017.py:149-156 | no match exactly when no index label matches; otherwise the first matching label |
| RiazGenes.FirstMatchAtIs | analysis/riaz2017/compute_tgjs_riaz2017.py:149-156 | `matches[0]` is the label at the first matching position |
| RiazGenes.Resolve | analysis/riaz2017/compute_tgjs_riaz2017.py:147-174 | a resolved label is always an index label |
| RiazGenes.Resolutions | analysis/riaz2017/compute_tgjs_riaz2017.py:145-174 | the resolution table has exactly the three genes, each mapped to its resolution |
| RiazGenes.Labels | analysis/riaz2017/compute_tgjs_riaz2017.py:184-186 | once every gene has a label, the label map has exactly the three genes, each with its table entry |
| RiazGenes.Unresolved | analysis/riaz2017/compute_tgjs_riaz2017.py:177 | the still-missing genes are exactly the genes no stage resolved |
| RiazGenes.Pending | analysis/riaz2017/compute_tgjs_riaz2017.py:162 | the missing list holds exactly the listed genes whose entry is None |
| RiazGenes.PendingUnresolved | analysis/riaz2017/compute_tgjs_riaz2017.py:162-177 | over a fully resolved table the missing list is the unresolved list |
| RiazGenes.MissingOf | analysis/riaz2017/compute_tgjs_riaz2017.py:162 | the comprehension yields the specified missing list in gene order |
| RiazGenes.Unset | analysis/riaz2017/compute_tgjs_riaz2017.py:145 | the table starts with each gene and no label |
| RiazGenes.NameFillEntries | analysis/riaz2017/compute_tgjs_riaz2017.py:147-159 | after the name loop has visited some genes, exactly those hold their name match, the rest none |
| RiazGenes.NameStage | analysis/riaz2017/compute_tgjs_riaz2017.py:145-159 | the table has exactly the three genes, each mapped to its name match |
| RiazGenes.EntrezStage | analysis/riaz2017/compute_tgjs_riaz2017.py:163-175 | after the Entrez fallback each gene maps to its full resolution |
| RiazGenes.EntrezFillEntries | analysis/riaz2017/compute_tgjs_riaz2017.py:168-174 | after the Entrez loop has visited some genes, each visited gene with an Entrez label in the index holds it; every other entry is unchanged |
| RiazGenes.EntrezFilled | analysis/riaz2017/compute_tgjs_riaz2017.py:147-174 | the name match where there is one, else the Entrez label, is each gene's resolution |
| RiazGenes.ResolveGenes | analysis/riaz2017/compute_tgjs_riaz2017.py:145-181 | gene resolution yields the specified result: the labels, or the genes still missing |
| RiazGenes.ResolvedLabels | analysis/riaz2017/compute_tgjs_riaz2017.py:177-186 | with no gene left empty, the filled table gives the same labels as the resolution of each gene |
| RiazGenes.ExactIsPartial | analysis/riaz2017/compute_tgjs_riaz2017.py:149-154 | an exact match is also a partial match |
| RiazGenes.ExactNameWins | analysis/riaz2017/compute_tgjs_riaz2017.py:149-156 | the first exact match is chosen, even when an earlier label matches partially |
| RiazGenes.EntrezOnlyWithoutName | analysis/riaz2017/compute_tgjs_riaz2017.py:151-174 | the Entrez id is used only when no label matches by name, and an integer label is preferred to a string one |
| RiazGenes.EntrezLabelIsNoName | analysis/riaz2017/compute_tgjs_riaz2017.py:167 | an Entrez label never equals the gene symbol |
| RiazGenes.ResolveAllLabels | analysis/riaz2017/compute_tgjs_riaz2017.py:176-184 | fails exactly when some gene is unresolved; otherwise all three genes map to index labels |
| RiazScore.ZScore | analysis/riaz2017/compute_tgjs_riaz2017.py:195-200 | the length is kept; values are defined exactly from two samples on; a zero deviation gives all zeros |
| RiazScore.ZScoreSumsToZero | analysis/riaz2017/compute_tgjs_riaz2017.py:195-200 | z-scores of two or more samples sum to zero |
| RiazScore.ZScoreUnitVariance | analysis/riaz2017/compute_tgjs_riaz2017.py:195-200 | z-scores of two or more samples with a nonzero deviation have sample variance 1 |
| RiazScore.ZScoreOrder | analysis/riaz2017/compute_tgjs_riaz2017.py:200 | with a non-zero deviation, z-scoring keeps strict order |
| RiazScore.ZScoreOfConstant | analysis/riaz2017/compute_tgjs_riaz2017.py:197-199 | a constant expression vector z-scores to all zeros |
| RiazScore.Composite | analysis/riaz2017/compute_tgjs_riaz2017.py:206 | the composite is present exactly when all three z values are |
| RiazScore.SumOfTgjs | analysis/riaz2017/compute_tgjs_riaz2017.py:206 | the weighted sum commutes with summing over samples |
| RiazScore.CompositeSumsToZero | analysis/riaz2017/compute_tgjs_riaz2017.py:202-206 | the composite of three z-scored genes sums to zero over the cohort |
| RiazScore.HighLow | analysis/riaz2017/compute_tgjs_riaz2017.py:231 | "High" exactly when the score and the median are present and the score is above the median, and "Low" otherwise |
| RiazScore.HighLowColumn | analysis/riaz2017/compute_tgjs_riaz2017.py:231 | one label per sample, each the sample's High/Low label |
| RiazScore.HighCount | analysis/riaz2017/compute_tgjs_riaz2017.py:231 | the "High" labels are the present scores above the median |
| RiazScore.HighAtMostHalf | analysis/riaz2017/compute_tgjs_riaz2017.py:231 | with the median of the present scores, at most half of them are "High" |

## Left out

- Network and file I/O are not modelled. This covers cBioPortal and GEO requests, retries, caching, CSV and JSON writing, plotting and console output. Their results are parameters: record lists, mutation lists, expression frames and characteristics lines.
- Long-to-wide pivots (`pivot_table`) and the expression loaders are not modelled. The model starts from the wide frame and assumes no duplicate (sample, gene) entries.
- `compute_derived_signatures` (analysis/tcga_gjs/compute_tgjs_coadread_mss.py:423-469) and the extra-gene fetch are not modelled. Their columns only become candidate markers of the stratified tests.
- `cancer_type_analysis` (analysis/tcga_gjs/compute_tgjs.py:328-366), the per-type aggregation and the ICI rate table are left out. The ICI decision takes the per-type mean tGJS and rates as inputs, both as columns: a per-type mean is NaN when none of that type's samples has a score (for example when a GJS gene has no spread), and the model carries that NaN into the test.
- SciPy's Spearman, Mann-Whitney, Kruskal-Wallis, the Nelder-Mead logistic fit and `pd.qcut` tertiles are left out. Spearman is a parameter; the others only feed printed statistics.
- Floating point is modelled as exact reals. Rounding to 4 digits, overflow, and `inf` from dividing by a zero deviation are not modelled; both inf and NaN are a missing value.
- Square roots are not computed. The standard deviation is a parameter: `SampleStd` (pan-cancer z-scores) and `IsSampleSd` (Riaz z-scores) pin it to the non-negative square root of the sample variance.
- Python's `float()` is not modelled. The parser of cBioPortal strings is a parameter, and `ValueError` is its `None`.
- Set and dictionary iteration order of `set(clin['sample_id'])` is a parameter `ids`, constrained to list each accession once.
- Case conversion and `\d` are ASCII-only. Python's Unicode upper-casing and Unicode digits are not modelled.
- The strata summary's `std_tGJS` is not modelled; the count and mean are.
- CoadreadStrata.ClinicalIndex: duplicate sample ids are assumed away. Ids are cut to 15 characters (analysis/tcga_gjs/compute_tgjs_coadread_mss.py:181), so two samples can share one; the left merge (analysis/tcga_gjs/compute_tgjs_coadread_mss.py:384-388) would then repeat the expression row once per clinical row, while the model keeps the last clinical row. `ClinicalIndexOf` is proved for distinct ids.
- RiazScore.HighLow: the median is a parameter. `MedianOf` says what it must be (NaN exactly when no score is present, otherwise a median of the present scores), and `HighAtMostHalf` proves what follows from it.
- The printed Pre-versus-On paired means are left out; the selection of paired patients is modelled.
- RiazScore.ZScore: the deviation is a parameter constrained by `IsSampleSd`. That predicate also states that the deviation is zero exactly when the variance is, which follows from its other two conjuncts.
- RiazClinical.RecordOf: its ensures covers the accession and title only. The response, visit and tissue fields are covered by `FieldDefault` and `FieldFromLine`.
- PanCancer.ComputeStingRatio: the frame is returned as a new value rather than mutated in place.
- In RiazColumns, two columns renamed to the same accession are not rejected. pandas then holds duplicate column labels, and `df['tGJS'] = tgjs_s` (analysis/riaz2017/compute_tgjs_riaz2017.py:217, with the series built at line 208) raises a `ValueError` when it aligns the series, so the run stops there. The model does not capture that failure.
- `astype(float)` on the Riaz gene vectors is not modelled; the vectors are already reals.
- The numeric gene index (`IntKey`) stands for pandas integer labels. Other label types are not modelled.

Behaviour that is easy to misread; the model follows the code:
- A COADREAD sample with no clinical row (a left-merge NaN) is placed in MSS_TP53wt rather than excluded (`StratumOf`).
- The consensus labels "MSI_H" and "HIGH" count as MSI-high, and so does any label containing "MSI-H".
- With fewer than two values, NumPy's `std(ddof=1)` is NaN, so Riaz `zscore` gives all NaN rather than zeros.
- `str.replace` removes every occurrence of the study suffix, not only a trailing one (`CancerType`).
