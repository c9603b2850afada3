TestResult.DisplayName,TestResult.Outcome,TestResult.Duration,TestResult.ResourceCount,RandomSeed
ScratchEx.TokenizeAssign (correctness),Failed,00:00:02.4055303,2127546,0
ScratchEx.AssignKeywordScan (correctness),Passed,00:00:00.6580965,801737,0
ScratchEx.AssignBracketScan (correctness),Passed,00:00:00.4372596,189589,0
ScratchEx.AssignLiteralScan (correctness),Passed,00:00:00.4047493,324968,0
ScratchEx.TokenizeAssign (well-formedness),Passed,00:00:00.3885595,132295,0
ScratchEx.AssignIdentifierScan (well-formedness),Passed,00:00:00.3618252,98422,0
ScratchEx.AssignKeywordScan (well-formedness),Passed,00:00:00.3573324,95544,0
ScratchEx.AssignLiteralScan (well-formedness),Passed,00:00:00.3533902,98927,0
ScratchEx.AssignOperatorScan (correctness),Passed,00:00:00.3212409,246325,0
ScratchEx.Tok (well-formedness),Passed,00:00:00.3175237,18532,0
ScratchEx.AssignIdentifierScan (correctness),Passed,00:00:00.3132531,346926,0
ScratchEx.AssignBracketScan (well-formedness),Passed,00:00:00.1993477,95544,0
ScratchEx.AssignOperatorScan (well-formedness),Passed,00:00:00.1551940,98923,0
