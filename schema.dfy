/** The fixed report layout of the ticket mirror: the thirty report column
    titles in sheet order, the source field name each one is renamed from,
    the columns the reconciler reads by position, and the two business
    lists the reconciler filters on. */
module Schema {

  /** Number of report columns. */
  const WIDTH: nat := 30

  /** Report column titles, in the order the sheet stores them. */
  const COLUMNS: seq<string> := [
    "Data/Hora abertura", "Prioridade", "N.º", "Código Sistema de Chamados do Cliente",
    "OC Pai : N.º", "Cliente", "Aberto por", "Descrição", "Divisão", "Status",
    "Operador responsável", "SLA de resposta", "Status do SLA de resposta", "SLA de solução",
    "Status do SLA de solução", "Idade da Ocorrência", "Tempo de dependência do usuario", "Projeto",
    "Solicitação", "Data/Hora da Última modificação", "Email do Contato do Cliente", "Data/hora de encerramento",
    "Horas Lançadas (em minutos)", "Cnt. Status : CLIENTE - Aguardando Retorno",
    "Cnt. Status : INTELLIGENZA - Feedback Retornado", "Cnt. Status : INTELLIGENZA - Feedback retornado do cliente",
    "Status (sem tempo decorrido)", "Data de Vencimento do SLA de Solução",
    "Resposta dentro do SLA", "Solução dentro do SLA"
  ]

  /** Source field names of the ticketing service; SOURCE_KEYS[i] is renamed
      to COLUMNS[i]. */
  const SOURCE_KEYS: seq<string> := [
    "data_abertura", "prioridade_desc", "numero", "idcamposvariaveis_572",
    "idocorrencia_parent", "cliente_nome", "aberto_por", "descricao", "area", "oco_status",
    "operador_responsavel_logado", "sla_resposta", "sla_resp_horas", "sla_solucao",
    "sla_solucao_horas", "idade_oc", "tempo_dependencia_user", "nome_projeto",
    "problema", "hora_ultima_modificacao", "contato_email", "data_fechamento",
    "horas_lancadas", "stat_cnt_16",
    "stat_cnt_100", "stat_cnt_5017",
    "oco_status_simples", "vencimento_sla_solucao",
    "resposta_dentro_sla", "solucao_dentro_sla"
  ]

  /** Positions of the report columns the reconciler reads. */
  const OPENED_AT: nat := 0      // "Data/Hora abertura", the sort column
  const NUMBER: nat := 2         // "N.º", the ticket number and table key
  const DIVISION: nat := 8       // "Divisão", checked against the allow-list
  const SIMPLE_STATUS: nat := 26 // "Status (sem tempo decorrido)", checked against the deny-list

  /** Source fields whose values are reformatted as dates before renaming. */
  const DATE_FIELDS: seq<string> := ["data_abertura", "vencimento_sla_solucao", "data_fechamento"]

  /** Divisions whose tickets the report keeps. */
  const ALLOWED_AREAS: set<string> := {
    "Em desenvolvimento ABAP, PI, WF, WD, .NET", "EC para ECP (colaboradores)",
    "EC para Enterprise SQL/SAP IBS (colaboradores)", "EC para WFS", "ECP para ADP",
    "ECP para EC (CIPA, Demais estabilidades)", "ECP para Enterprise SQL (ficha financeira)",
    "ECP para SAP IBS (contábil)", "ECP para Senior (férias)",
    "ECP para SOC (Unidade, Setor, Cargo, Hierarquia, M",
    "ECP para Vacation Control (contingente)", "GDP para EC (onboarding)", "Integração ALE",
    "Senior para ECP (ausências)", "Senior para ECP (fechamento ponto)",
    "Tecnologia - Dev & Integração",
    "WFS para ADP", "WFS para ECP", "WFS para Senior",
    "SFSF Integrations - EC Payroll, Boomi/SCI, API",
    "R - Integrations - EC Payroll, Boomi/SCI, API"
  }

  /** Simplified statuses whose tickets the report drops. */
  const CLOSED_STATUSES: set<string> := {"Encerrada", "Ocorrência Cancelada", "Encerrar SUB-Ocorrência"}

  /** A report row: exactly one cell per report column. */
  type Row = r: seq<string> | |r| == WIDTH witness seq(WIDTH, _ => "")

  /** The layout constants agree with each other: thirty titles, thirty
      source keys, and the positional constants name the intended titles. */
  lemma LayoutConsistent()
    ensures |COLUMNS| == WIDTH && |SOURCE_KEYS| == WIDTH
    ensures COLUMNS[OPENED_AT] == "Data/Hora abertura" && COLUMNS[NUMBER] == "N.º"
    ensures COLUMNS[DIVISION] == "Divisão" && COLUMNS[SIMPLE_STATUS] == "Status (sem tempo decorrido)"
    ensures SOURCE_KEYS[OPENED_AT] == "data_abertura" && SOURCE_KEYS[NUMBER] == "numero"
    ensures SOURCE_KEYS[DIVISION] == "area" && SOURCE_KEYS[SIMPLE_STATUS] == "oco_status_simples"
  {
  }

  /** No two source keys are equal, so renaming is one-to-one. */
  lemma SourceKeysDistinct()
    ensures forall i, j :: 0 <= i < j < |SOURCE_KEYS| ==> SOURCE_KEYS[i] != SOURCE_KEYS[j]
  {
  }

  /** No two report titles are equal. */
  lemma ColumnsDistinct()
    ensures forall i, j :: 0 <= i < j < |COLUMNS| ==> COLUMNS[i] != COLUMNS[j]
  {
  }

  /** No source key is also a report title. */
  lemma KeysAreNotTitles()
    ensures forall i, j :: 0 <= i < |SOURCE_KEYS| && 0 <= j < |COLUMNS| ==> SOURCE_KEYS[i] != COLUMNS[j]
  {
  }
}
